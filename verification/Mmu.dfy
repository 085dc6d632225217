/** Address translation with a TLB tagged by address space: memory/virtual_mem/pageFlush.c.

    The reference is a machine without a TLB (`Walk`).  The theorems are that the TLB cannot be
    noticed in any run, that flushing one entry really removes it although the search stops at the
    first match and ignores `valid`, and that pages never share a frame as long as every unpin gives
    back a pin of its own; nor do processes, up to 255 of them.  The sizes of the TLB, of the memory and of
    the page tables are parameters.
 */
module Mmu {
  import opened Common

  const PAGE_SIZE := 4096
  const MAX_PROCESSES := 256
  const FAILED := 0xFFFF_FFFF_FFFF_FFFF   // (uint64_t)-1

  datatype Entry = Entry(vpn: nat, pfn: nat, asid: nat, valid: bool)

  /** Pin counts by frame, page-table entries by address space and page, and the TLB. */
  datatype State = State(pins: seq<int>, tables: seq<seq<nat>>, tlb: seq<Entry>)

  // ---------------------------------------------------------------------------------------------
  // Page-table entries
  // ---------------------------------------------------------------------------------------------

  /** Present, writable and user bits below the frame number. */
  function Encode(pfn: nat): nat { pfn * 4096 + 7 }

  predicate Present(pte: nat) { pte % 2 == 1 }

  function Frame(pte: nat): nat { pte / 4096 }

  lemma EncodeRoundTrip(pfn: nat)
    ensures Present(Encode(pfn)) && Frame(Encode(pfn)) == pfn
    ensures Encode(pfn) == Frame(Encode(pfn)) * PAGE_SIZE + 7   // present, writable and user
  {
  }

  // ---------------------------------------------------------------------------------------------
  // Searches
  // ---------------------------------------------------------------------------------------------

  predicate HasKey(e: Entry, vpn: nat, asid: nat) { e.vpn == vpn && e.asid == asid }

  predicate Hits(e: Entry, vpn: nat, asid: nat) { e.valid && HasKey(e, vpn, asid) }

  /** The first valid entry for a page; the length of the TLB when there is none. */
  function Lookup(tlb: seq<Entry>, vpn: nat, asid: nat): (i: nat)
    ensures i <= |tlb| && (i < |tlb| ==> Hits(tlb[i], vpn, asid))
    ensures forall j | 0 <= j < i :: !Hits(tlb[j], vpn, asid)
  {
    if tlb == [] || Hits(tlb[0], vpn, asid) then 0 else
      var i := Lookup(tlb[1..], vpn, asid);
      assert forall j | 1 <= j < |tlb| :: tlb[j] == tlb[1..][j - 1];
      i + 1
  }

  /** The first entry, valid or not, with a page's key. */
  function FirstWithKey(tlb: seq<Entry>, vpn: nat, asid: nat): (i: nat)
    ensures i <= |tlb| && (i < |tlb| ==> HasKey(tlb[i], vpn, asid))
    ensures forall j | 0 <= j < i :: !HasKey(tlb[j], vpn, asid)
  {
    if tlb == [] || HasKey(tlb[0], vpn, asid) then 0 else
      var i := FirstWithKey(tlb[1..], vpn, asid);
      assert forall j | 1 <= j < |tlb| :: tlb[j] == tlb[1..][j - 1];
      i + 1
  }

  function FirstInvalid(tlb: seq<Entry>): (i: nat)
    ensures i <= |tlb| && (i < |tlb| ==> !tlb[i].valid)
    ensures forall j | 0 <= j < i :: tlb[j].valid
  {
    if tlb == [] || !tlb[0].valid then 0 else
      var i := FirstInvalid(tlb[1..]);
      assert forall j | 1 <= j < |tlb| :: tlb[j] == tlb[1..][j - 1];
      i + 1
  }

  function FirstUnpinned(pins: seq<int>): (i: nat)
    ensures i <= |pins| && (i < |pins| ==> pins[i] == 0)
    ensures forall j | 0 <= j < i :: pins[j] != 0
  {
    if pins == [] || pins[0] == 0 then 0 else
      var i := FirstUnpinned(pins[1..]);
      assert forall j | 1 <= j < |pins| :: pins[j] == pins[1..][j - 1];
      i + 1
  }

  // ---------------------------------------------------------------------------------------------
  // Operations
  // ---------------------------------------------------------------------------------------------

  predicate InTables(s: State, asid: nat, vpn: nat) { asid < |s.tables| && vpn < |s.tables[asid]| }

  function Install(tables: seq<seq<nat>>, asid: nat, vpn: nat, pte: nat): seq<seq<nat>>
    requires asid < |tables| && vpn < |tables[asid]|
  {
    var row: seq<nat> := tables[asid][vpn := pte];
    tables[asid := row]
  }

  /** The machine without a TLB: the frame of a page, allocated at the first use.  `None` when there
      is no unpinned frame left. */
  function Walk(s: State, asid: nat, vpn: nat): (r: (State, Option<nat>))
    requires InTables(s, asid, vpn)
  {
    var pte := s.tables[asid][vpn];
    if Present(pte) then (s, Some(Frame(pte)))
    else
      var pfn := FirstUnpinned(s.pins);
      if pfn == |s.pins| then (s, None)
      else (s.(pins := s.pins[pfn := 1], tables := Install(s.tables, asid, vpn, Encode(pfn))), Some(pfn))
  }

  function Fill(tlb: seq<Entry>, e: Entry): seq<Entry> {
    var i := FirstInvalid(tlb);
    if i < |tlb| then tlb[i := e] else tlb
  }

  /** `translate_address` down to the frame: TLB first, then the page table, filling an invalid TLB entry. */
  function Translate(s: State, asid: nat, vpn: nat): (r: (State, Option<nat>))
    requires InTables(s, asid, vpn)
  {
    var i := Lookup(s.tlb, vpn, asid);
    if i < |s.tlb| then (s, Some(s.tlb[i].pfn))
    else
      var (s1, frame) := Walk(s, asid, vpn);
      match frame
      case None => (s1, None)
      case Some(pfn) => (s1.(tlb := Fill(s1.tlb, Entry(vpn, pfn, asid, true))), frame)
  }

  /** `flush_tlb_entry`. */
  function FlushEntry(tlb: seq<Entry>, vpn: nat, asid: nat): seq<Entry> {
    var i := FirstWithKey(tlb, vpn, asid);
    if i < |tlb| then tlb[i := tlb[i].(valid := false)] else tlb
  }

  /** `flush_tlb`. */
  function FlushAll(tlb: seq<Entry>): (r: seq<Entry>)
    ensures |r| == |tlb| && forall i | 0 <= i < |r| :: r[i] == tlb[i].(valid := false)
  {
    seq(|tlb|, i requires 0 <= i < |tlb| => tlb[i].(valid := false))
  }

  function Pin(pins: seq<int>, pfn: nat): seq<int>
    requires pfn < |pins|
  {
    pins[pfn := pins[pfn] + 1]
  }

  function Unpin(pins: seq<int>, pfn: nat): seq<int>
    requires pfn < |pins|
  {
    if pins[pfn] > 0 then pins[pfn := pins[pfn] - 1] else pins
  }

  // ---------------------------------------------------------------------------------------------
  // What every operation keeps
  // ---------------------------------------------------------------------------------------------

  /** Page `vpn` of address space `asid` is in frame `pfn`. */
  predicate Maps(s: State, asid: nat, vpn: nat, pfn: nat) {
    InTables(s, asid, vpn) && Present(s.tables[asid][vpn]) && Frame(s.tables[asid][vpn]) == pfn
  }

  /** Every valid TLB entry agrees with the page table. */
  ghost predicate Coherent(s: State) {
    forall i | 0 <= i < |s.tlb| && s.tlb[i].valid :: Maps(s, s.tlb[i].asid, s.tlb[i].vpn, s.tlb[i].pfn)
  }

  /** No entry, valid or stale, below a valid entry carries its key. */
  ghost predicate KeysOrdered(tlb: seq<Entry>) {
    forall i, j | 0 <= i < j < |tlb| && tlb[j].valid :: !HasKey(tlb[i], tlb[j].vpn, tlb[j].asid)
  }

  /** Frames in use are pinned. */
  ghost predicate FramesPinned(s: State) {
    forall a: nat, v: nat, f: nat | Maps(s, a, v, f) :: f < |s.pins| && s.pins[f] > 0
  }

  /** Different pages are in different frames. */
  ghost predicate FramesExclusive(s: State) {
    forall a: nat, v: nat, a': nat, v': nat, f: nat | Maps(s, a, v, f) && Maps(s, a', v', f) :: a == a' && v == v'
  }

  ghost predicate Inv(s: State) {
    Coherent(s) && KeysOrdered(s.tlb) && FramesPinned(s) && FramesExclusive(s)
  }

  /** What a walk does to the mapping: nothing, or one new page in a frame that was not in use. */
  lemma WalkMaps(s: State, asid: nat, vpn: nat)
    requires InTables(s, asid, vpn)
    ensures var (s', frame) := Walk(s, asid, vpn);
      && (forall a: nat, v: nat, f: nat | Maps(s, a, v, f) :: Maps(s', a, v, f))
      && (forall a: nat, v: nat, f: nat | Maps(s', a, v, f) :: Maps(s, a, v, f) || (a == asid && v == vpn))
      && (frame.Some? ==> Maps(s', asid, vpn, frame.value))
  {
    EncodeRoundTrip(FirstUnpinned(s.pins));
  }

  lemma WalkKeeps(s: State, asid: nat, vpn: nat)
    requires InTables(s, asid, vpn) && Inv(s)
    ensures Inv(Walk(s, asid, vpn).0)
  {
    WalkMaps(s, asid, vpn);
  }

  /** Filling the first invalid entry keeps the keys in order, if no valid entry had the key. */
  lemma FillKeepsOrder(tlb: seq<Entry>, e: Entry)
    requires KeysOrdered(tlb) && Lookup(tlb, e.vpn, e.asid) == |tlb|
    ensures KeysOrdered(Fill(tlb, e))
  {
  }

  /** The TLB cannot be noticed: translation gives the frame that the machine without a TLB gives, and
      does to memory and page tables what that machine does. */
  lemma TlbTransparent(s: State, asid: nat, vpn: nat)
    requires InTables(s, asid, vpn) && Coherent(s)
    ensures var (s1, frame1) := Translate(s, asid, vpn); var (s2, frame2) := Walk(s, asid, vpn);
      frame1 == frame2 && s1.pins == s2.pins && s1.tables == s2.tables
  {
    var i := Lookup(s.tlb, vpn, asid);
    if i < |s.tlb| { assert Maps(s, s.tlb[i].asid, s.tlb[i].vpn, s.tlb[i].pfn); }
  }

  /** What is translated is cached: unless the TLB was full of other valid entries, the page has a valid entry
      afterwards; and no entry that was valid before goes away. */
  lemma TranslationCached(s: State, asid: nat, vpn: nat)
    requires InTables(s, asid, vpn)
    ensures var (s', frame) := Translate(s, asid, vpn);
      && |s'.tlb| == |s.tlb|
      && (frame.Some? && (exists j :: 0 <= j < |s.tlb| && !s.tlb[j].valid) ==>
            exists j :: 0 <= j < |s'.tlb| && Hits(s'.tlb[j], vpn, asid) && s'.tlb[j].pfn == frame.value)
      && forall j | 0 <= j < |s.tlb| && s.tlb[j].valid :: s'.tlb[j] == s.tlb[j]
  {
    var i, k := Lookup(s.tlb, vpn, asid), FirstInvalid(s.tlb);
    var (s', frame) := Translate(s, asid, vpn);
    if i < |s.tlb| {
      assert Hits(s'.tlb[i], vpn, asid);
    } else if frame.Some? && k < |s.tlb| {
      assert s'.tlb[k] == Entry(vpn, frame.value, asid, true);
    }
  }

  lemma TranslateKeeps(s: State, asid: nat, vpn: nat)
    requires InTables(s, asid, vpn) && Inv(s)
    ensures Inv(Translate(s, asid, vpn).0)
  {
    var i := Lookup(s.tlb, vpn, asid);
    if i == |s.tlb| {
      WalkKeeps(s, asid, vpn);
      WalkMaps(s, asid, vpn);
      var (s1, frame) := Walk(s, asid, vpn);
      if frame.Some? {
        var s2 := s1.(tlb := Fill(s1.tlb, Entry(vpn, frame.value, asid, true)));
        FillKeepsOrder(s1.tlb, Entry(vpn, frame.value, asid, true));
        SameMapping(s1, s2);
      }
    }
  }

  /** Only the page tables matter for the mapping. */
  lemma SameMapping(s: State, s': State)
    requires s'.tables == s.tables && |s'.pins| == |s.pins|
    requires forall f | 0 <= f < |s.pins| && s.pins[f] > 0 :: s'.pins[f] > 0
    ensures forall a: nat, v: nat, f: nat :: Maps(s', a, v, f) <==> Maps(s, a, v, f)
    ensures FramesPinned(s) ==> FramesPinned(s')
    ensures FramesExclusive(s) ==> FramesExclusive(s')
  {
  }

  /** Flushing an entry leaves no valid entry for the page, and no other entry changes. */
  lemma FlushEntryRemoves(tlb: seq<Entry>, vpn: nat, asid: nat)
    requires KeysOrdered(tlb)
    ensures Lookup(FlushEntry(tlb, vpn, asid), vpn, asid) == |tlb|
    ensures forall i | 0 <= i < |tlb| && !HasKey(tlb[i], vpn, asid) :: FlushEntry(tlb, vpn, asid)[i] == tlb[i]
    ensures KeysOrdered(FlushEntry(tlb, vpn, asid))
  {
    var i := FirstWithKey(tlb, vpn, asid);
    var flushed := FlushEntry(tlb, vpn, asid);
    forall j | 0 <= j < |flushed| ensures !Hits(flushed[j], vpn, asid) {
      if i < j && tlb[j].valid { assert !HasKey(tlb[i], tlb[j].vpn, tlb[j].asid); }
    }
  }

  /** Without the order of the keys the flush can miss: a stale entry in front hides a valid one. */
  lemma FlushNeedsKeyOrder(vpn: nat, asid: nat, pfn: nat)
    ensures var tlb := [Entry(vpn, pfn, asid, false), Entry(vpn, pfn, asid, true)];
      !KeysOrdered(tlb) && Lookup(FlushEntry(tlb, vpn, asid), vpn, asid) < |tlb|
  {
    var tlb := [Entry(vpn, pfn, asid, false), Entry(vpn, pfn, asid, true)];
    assert tlb[1].valid && HasKey(tlb[0], tlb[1].vpn, tlb[1].asid);
    assert FirstWithKey(tlb, vpn, asid) == 0;
    assert Hits(FlushEntry(tlb, vpn, asid)[1], vpn, asid);
  }

  /** A frame with one pin that some page is in: unpinning it would give it away. */
  predicate LastPin(s: State, pfn: nat, asid: nat, vpn: nat) {
    pfn < |s.pins| && s.pins[pfn] == 1 && Maps(s, asid, vpn, pfn)
  }

  /** Unpinning keeps the frames in use pinned if and only if it does not take the last pin of one. */
  lemma UnpinSafeIff(s: State, pfn: nat)
    requires pfn < |s.pins| && FramesPinned(s)
    ensures FramesPinned(s.(pins := Unpin(s.pins, pfn))) <==> !exists a: nat, v: nat :: LastPin(s, pfn, a, v)
  {
    var s' := s.(pins := Unpin(s.pins, pfn));
    assert forall a: nat, v: nat, f: nat :: Maps(s', a, v, f) <==> Maps(s, a, v, f);
    if a: nat, v: nat :| LastPin(s, pfn, a, v) {
      assert Maps(s', a, v, pfn);
    } else {
      forall a: nat, v: nat, f: nat | Maps(s', a, v, f) ensures f < |s'.pins| && s'.pins[f] > 0 {
        assert Maps(s, a, v, f) && !LastPin(s, pfn, a, v);
      }
    }
  }

  /** After taking the last pin of a frame in use, the next new page gets the same frame. */
  lemma LastUnpinAliases(s: State, pfn: nat, asid: nat, vpn: nat, asid': nat, vpn': nat)
    requires Inv(s) && LastPin(s, pfn, asid, vpn)
    requires forall f | 0 <= f < pfn :: s.pins[f] != 0
    requires InTables(s, asid', vpn') && !Present(s.tables[asid'][vpn'])
    ensures var (s', frame) := Walk(s.(pins := Unpin(s.pins, pfn)), asid', vpn');
      frame == Some(pfn) && Maps(s', asid, vpn, pfn) && Maps(s', asid', vpn', pfn) && !FramesExclusive(s')
  {
    var s1 := s.(pins := Unpin(s.pins, pfn));
    assert s1.pins[pfn] == 0 && forall f | 0 <= f < pfn :: s1.pins[f] == s.pins[f];
    assert FirstUnpinned(s1.pins) == pfn;
    assert Maps(s1, asid, vpn, pfn);
    WalkMaps(s1, asid', vpn');
  }

  // ---------------------------------------------------------------------------------------------
  // Address-space identifiers
  // ---------------------------------------------------------------------------------------------

  const ASIDS := 255   // 1 .. 255; zero means that none has been assigned

  /** The identifier of every process, the next one to give out, and the processes that have one, in
      the order in which they got it. */
  datatype Spaces = Spaces(asids: seq<nat>, next: nat, order: seq<nat>)

  /** `switch_process`: a process gets an identifier the first time; the counter is 8 bits wide and
      skips zero.  The second result says whether the TLB is flushed. */
  function Switch(sp: Spaces, p: nat): (Spaces, bool)
    requires p < |sp.asids|
  {
    if sp.asids[p] != 0 then (sp, false) else
      var next := (sp.next + 1) % 256;
      (Spaces(sp.asids[p := sp.next], if next == 0 then 1 else next, sp.order + [p]), next == 0)
  }

  ghost predicate SpacesInv(sp: Spaces) {
    && sp.next == 1 + |sp.order| % ASIDS
    && (forall n | 0 <= n < |sp.order| :: sp.order[n] < |sp.asids| && sp.asids[sp.order[n]] == 1 + n % ASIDS)
    && (forall n, m | 0 <= n < m < |sp.order| :: sp.order[n] != sp.order[m])
    && (forall p: nat | p < |sp.asids| && p !in sp.order :: sp.asids[p] == 0)
  }

  lemma SwitchKeeps(sp: Spaces, p: nat)
    requires SpacesInv(sp) && p < |sp.asids|
    ensures SpacesInv(Switch(sp, p).0)
  {
    if sp.asids[p] == 0 {
      NextIdentifier(|sp.order|);
      NewcomerHasNone(sp, p);
    }
  }

  lemma NextIdentifier(n: nat)
    ensures (if (1 + n % ASIDS + 1) % 256 == 0 then 1 else (1 + n % ASIDS + 1) % 256) == 1 + (n + 1) % ASIDS
  {
    if n % ASIDS == ASIDS - 1 {
      assert n + 1 == (n / ASIDS + 1) * ASIDS;
    } else {
      assert (n + 1) % ASIDS == n % ASIDS + 1;
    }
  }

  lemma NewcomerHasNone(sp: Spaces, p: nat)
    requires SpacesInv(sp) && p < |sp.asids| && sp.asids[p] == 0
    ensures p !in sp.order
  {
  }

  ghost predicate Distinct(sp: Spaces) {
    forall p: nat, q: nat | p < q < |sp.asids| && sp.asids[p] != 0 && sp.asids[q] != 0 :: sp.asids[p] != sp.asids[q]
  }

  /** When a process got its identifier. */
  lemma TurnOf(sp: Spaces, p: nat) returns (n: nat)
    requires SpacesInv(sp) && p < |sp.asids| && sp.asids[p] != 0 && |sp.order| <= ASIDS
    ensures n < |sp.order| && sp.order[n] == p && sp.asids[p] == 1 + n
  {
    assert p in sp.order;
    n :| 0 <= n < |sp.order| && sp.order[n] == p;
  }

  /** Processes have different identifiers as long as, and only as long as, at most 255 have one. */
  lemma AsidsDistinctIff(sp: Spaces)
    requires SpacesInv(sp)
    ensures Distinct(sp) <==> |sp.order| <= ASIDS
  {
    if |sp.order| > ASIDS {
      var p, q := sp.order[0], sp.order[ASIDS];
      assert sp.asids[p] == 1 && sp.asids[q] == 1 && p != q;
    } else {
      forall p: nat, q: nat | p < q < |sp.asids| && sp.asids[p] != 0 && sp.asids[q] != 0
        ensures sp.asids[p] != sp.asids[q]
      {
        var n := TurnOf(sp, p);
        var m := TurnOf(sp, q);
      }
    }
  }

  // ---------------------------------------------------------------------------------------------
  // Whole runs
  // ---------------------------------------------------------------------------------------------

  /** Memory, page tables and TLB, the identifiers of the processes, and the current identifier. */
  datatype Machine = Machine(memory: State, spaces: Spaces, current: nat)

  /** What `switch_process` does to the machine. */
  function AfterSwitch(m: Machine, p: nat): Machine
    requires p < |m.spaces.asids|
  {
    var (spaces, flush) := Switch(m.spaces, p);
    var tlb := if flush then FlushAll(m.memory.tlb) else m.memory.tlb;
    Machine(m.memory.(tlb := tlb), spaces, spaces.asids[p])
  }

  /** The switch that gives out the last identifier before the numbering starts again leaves no TLB entry valid; every
      other switch leaves the TLB as it is. */
  lemma FlushAtWrap(m: Machine, p: nat)
    requires SpacesInv(m.spaces) && p < |m.spaces.asids|
    ensures var tlb, tlb' := m.memory.tlb, AfterSwitch(m, p).memory.tlb;
      if m.spaces.asids[p] == 0 && |m.spaces.order| % ASIDS == ASIDS - 1
      then |tlb'| == |tlb| && forall i | 0 <= i < |tlb'| :: !tlb'[i].valid
      else tlb' == tlb
  {
  }

  datatype Event =
    | TranslateEvent(asid: nat, vpn: nat, frame: Option<nat>)
    | FlushEntryEvent(vpn: nat, asid: nat)
    | FlushAllEvent
    | PinEvent(pfn: nat)
    | UnpinEvent(pfn: nat)
    | SwitchEvent(p: nat)

  /** What a call does to memory, page tables and TLB. */
  ghost predicate MemoryStep(s: State, e: Event, s': State) {
    match e
    case TranslateEvent(asid, vpn, frame) => InTables(s, asid, vpn) && (s', frame) == Translate(s, asid, vpn)
    case FlushEntryEvent(vpn, asid) => s' == s.(tlb := FlushEntry(s.tlb, vpn, asid))
    case FlushAllEvent => s' == s.(tlb := FlushAll(s.tlb))
    case PinEvent(pfn) => pfn < |s.pins| && s' == s.(pins := Pin(s.pins, pfn))
    case UnpinEvent(pfn) => pfn < |s.pins| && s' == s.(pins := Unpin(s.pins, pfn))
    case SwitchEvent(_) => s' == s || s' == s.(tlb := FlushAll(s.tlb))
  }

  /** One call of one of the functions, for any process or address space. */
  ghost predicate Step(m: Machine, e: Event, m': Machine) {
    match e
    case SwitchEvent(p) => p < |m.spaces.asids| && m' == AfterSwitch(m, p)
    case _ => MemoryStep(m.memory, e, m'.memory) && m'.spaces == m.spaces && m'.current == m.current
  }

  /** Nothing pinned, nothing mapped, nothing cached. */
  ghost predicate Init(s: State) {
    && (forall f | 0 <= f < |s.pins| :: s.pins[f] == 0)
    && (forall a: nat, v: nat | InTables(s, a, v) :: s.tables[a][v] == 0)
    && (forall i | 0 <= i < |s.tlb| :: s.tlb[i] == Entry(0, 0, 0, false))
  }

  /** No identifier given out. */
  ghost predicate NoSpaces(sp: Spaces) {
    sp.next == 1 && sp.order == [] && forall p | 0 <= p < |sp.asids| :: sp.asids[p] == 0
  }

  /** How many pins of a frame its callers still owe an unpin. */
  function Outstanding(events: seq<Event>, pfn: nat): int {
    if events == [] then 0 else
      Outstanding(events[..|events| - 1], pfn) + Owed(events[|events| - 1], pfn)
  }

  function Owed(e: Event, pfn: nat): int {
    if e == PinEvent(pfn) then 1 else if e == UnpinEvent(pfn) then -1 else 0
  }

  /** Every unpin is preceded by a pin of its own. */
  ghost predicate Balanced(events: seq<Event>) {
    forall i | 0 <= i < |events| && events[i].UnpinEvent? :: Outstanding(events[..i], events[i].pfn) > 0
  }

  ghost predicate Run(states: seq<Machine>, events: seq<Event>) {
    && |states| == |events| + 1 && Init(states[0].memory) && NoSpaces(states[0].spaces) && Balanced(events)
    && forall i | 0 <= i < |events| :: Step(states[i], events[i], states[i + 1])
  }

  /** Any sequence of calls, with unpins that nobody owes as well. */
  ghost predicate AnyRun(states: seq<Machine>, events: seq<Event>) {
    && |states| == |events| + 1 && Init(states[0].memory) && NoSpaces(states[0].spaces)
    && forall i | 0 <= i < |events| :: Step(states[i], events[i], states[i + 1])
  }

  ghost predicate NoNegativePins(s: State) { forall f | 0 <= f < |s.pins| :: s.pins[f] >= 0 }

  /** Whatever is unpinned, no pin count is ever negative. */
  lemma {:induction false} PinsNeverNegative(states: seq<Machine>, events: seq<Event>, i: nat)
    requires AnyRun(states, events) && i < |states|
    ensures NoNegativePins(states[i].memory)
  {
    if i > 0 {
      PinsNeverNegative(states, events, i - 1);
      assert Step(states[i - 1], events[i - 1], states[i]);
    }
  }

  /** Some page is in the frame. */
  ghost predicate Mapped(s: State, f: nat) { exists a: nat, v: nat :: Maps(s, a, v, f) }

  /** The pins of a frame are those outstanding, and one more if a page is in it. */
  ghost predicate PinsExact(s: State, events: seq<Event>) {
    forall f: nat | f < |s.pins| ::
      Outstanding(events, f) >= 0 && s.pins[f] == Outstanding(events, f) + (if Mapped(s, f) then 1 else 0)
  }

  lemma OutstandingAfter(events: seq<Event>, e: Event, f: nat)
    ensures Outstanding(events + [e], f) == Outstanding(events, f) + Owed(e, f)
  {
    assert (events + [e])[..|events|] == events;
  }

  /** A step that changes neither page tables nor pins keeps the account of the pins. */
  lemma SamePins(s: State, s': State, events: seq<Event>, e: Event)
    requires PinsExact(s, events) && s'.tables == s.tables && s'.pins == s.pins
    requires !e.PinEvent? && !e.UnpinEvent?
    ensures PinsExact(s', events + [e])
  {
    forall f: nat | f < |s.pins|
      ensures Outstanding(events + [e], f) == Outstanding(events, f) && (Mapped(s', f) <==> Mapped(s, f))
    {
      OutstandingAfter(events, e, f);
      SameMapped(s, s', f);
    }
  }

  lemma SameMapped(s: State, s': State, f: nat)
    requires s'.tables == s.tables
    ensures Mapped(s', f) <==> Mapped(s, f)
  {
    assert forall a: nat, v: nat :: Maps(s', a, v, f) <==> Maps(s, a, v, f);
  }

  /** A pin, or an unpin of an outstanding pin, moves the account of its frame by one. */
  lemma PinsMove(s: State, s': State, events: seq<Event>, e: Event)
    requires PinsExact(s, events) && MemoryStep(s, e, s') && (e.PinEvent? || e.UnpinEvent?)
    requires e.UnpinEvent? ==> Outstanding(events, e.pfn) > 0
    ensures PinsExact(s', events + [e])
  {
    forall f: nat | f < |s'.pins|
      ensures Outstanding(events + [e], f) >= 0
      ensures s'.pins[f] == Outstanding(events + [e], f) + (if Mapped(s', f) then 1 else 0)
    {
      OutstandingAfter(events, e, f);
      SameMapped(s, s', f);
    }
  }

  /** A walk that maps a new page uses a frame that nobody has pinned. */
  lemma WalkPins(s: State, asid: nat, vpn: nat, events: seq<Event>, e: Event)
    requires InTables(s, asid, vpn) && PinsExact(s, events) && e.TranslateEvent?
    ensures PinsExact(Walk(s, asid, vpn).0, events + [e])
  {
    var (s', frame) := Walk(s, asid, vpn);
    var pfn := FirstUnpinned(s.pins);
    if Present(s.tables[asid][vpn]) || pfn == |s.pins| {
      SamePins(s, s', events, e);
    } else {
      WalkMaps(s, asid, vpn);
      EncodeRoundTrip(pfn);
      forall f: nat | f < |s'.pins|
        ensures Outstanding(events + [e], f) >= 0
        ensures s'.pins[f] == Outstanding(events + [e], f) + (if Mapped(s', f) then 1 else 0)
      {
        OutstandingAfter(events, e, f);
        NewlyMapped(s, asid, vpn, f);
      }
    }
  }

  lemma NewlyMapped(s: State, asid: nat, vpn: nat, f: nat)
    requires InTables(s, asid, vpn) && !Present(s.tables[asid][vpn]) && FirstUnpinned(s.pins) < |s.pins|
    ensures Mapped(Walk(s, asid, vpn).0, f) <==> Mapped(s, f) || f == FirstUnpinned(s.pins)
  {
    WalkMaps(s, asid, vpn);
    var s' := Walk(s, asid, vpn).0;
    assert Maps(s', asid, vpn, FirstUnpinned(s.pins));
    if a: nat, v: nat :| Maps(s, a, v, f) {
      assert Maps(s', a, v, f);
    }
    if a: nat, v: nat :| Maps(s', a, v, f) {
      assert Maps(s, a, v, f) || (a == asid && v == vpn);
    }
  }

  /** The account of the pins is kept by every step of a balanced run. */
  lemma PinsKept(s: State, e: Event, s': State, events: seq<Event>)
    requires Coherent(s) && PinsExact(s, events) && MemoryStep(s, e, s')
    requires e.UnpinEvent? ==> Outstanding(events, e.pfn) > 0
    ensures PinsExact(s', events + [e])
  {
    if e.PinEvent? || e.UnpinEvent? {
      PinsMove(s, s', events, e);
    } else if e.TranslateEvent? {
      TlbTransparent(s, e.asid, e.vpn);
      WalkPins(s, e.asid, e.vpn, events, e);
      SameExact(Walk(s, e.asid, e.vpn).0, s', events + [e]);
    } else {
      SamePins(s, s', events, e);
    }
  }

  lemma SameExact(s: State, s': State, events: seq<Event>)
    requires PinsExact(s, events) && s'.tables == s.tables && s'.pins == s.pins
    ensures PinsExact(s', events)
  {
    forall f: nat | f < |s.pins| ensures Mapped(s', f) <==> Mapped(s, f) { SameMapped(s, s', f); }
  }

  /** An outstanding pin is not the last pin of a frame in use. */
  lemma OutstandingIsNotLast(s: State, events: seq<Event>, pfn: nat)
    requires PinsExact(s, events) && pfn < |s.pins| && Outstanding(events, pfn) > 0
    ensures !exists a: nat, v: nat :: LastPin(s, pfn, a, v)
  {
    if a: nat, v: nat :| LastPin(s, pfn, a, v) {
      assert Mapped(s, pfn);
    }
  }

  lemma MemoryStepKeeps(s: State, e: Event, s': State, events: seq<Event>)
    requires Inv(s) && PinsExact(s, events) && MemoryStep(s, e, s')
    requires e.UnpinEvent? ==> Outstanding(events, e.pfn) > 0
    ensures Inv(s')
    ensures forall a: nat, v: nat, f: nat | Maps(s, a, v, f) :: Maps(s', a, v, f)
  {
    match e
    case TranslateEvent(asid, vpn, frame) =>
      TranslateKeeps(s, asid, vpn);
      TlbTransparent(s, asid, vpn);
      WalkMaps(s, asid, vpn);
      SameTables(Walk(s, asid, vpn).0, s');
    case FlushEntryEvent(vpn, asid) =>
      FlushEntryRemoves(s.tlb, vpn, asid);
      SameMapping(s, s');
    case FlushAllEvent => SameMapping(s, s');
    case PinEvent(pfn) => SameMapping(s, s');
    case UnpinEvent(pfn) =>
      OutstandingIsNotLast(s, events, pfn);
      UnpinSafeIff(s, pfn);
      SameTables(s, s');
    case SwitchEvent(_) => SameMapping(s, s');
  }

  lemma SameTables(s: State, s': State)
    requires s'.tables == s.tables
    ensures forall a: nat, v: nat, f: nat :: Maps(s', a, v, f) <==> Maps(s, a, v, f)
  {
  }

  ghost predicate MachineInv(m: Machine, events: seq<Event>) {
    Inv(m.memory) && PinsExact(m.memory, events) && SpacesInv(m.spaces)
  }

  lemma StepKeeps(m: Machine, e: Event, m': Machine, events: seq<Event>)
    requires MachineInv(m, events) && Step(m, e, m')
    requires e.UnpinEvent? ==> Outstanding(events, e.pfn) > 0
    ensures MachineInv(m', events + [e])
    ensures forall a: nat, v: nat, f: nat | Maps(m.memory, a, v, f) :: Maps(m'.memory, a, v, f)
  {
    MemoryStepKeeps(m.memory, e, m'.memory, events);
    PinsKept(m.memory, e, m'.memory, events);
    if e.SwitchEvent? { SwitchKeeps(m.spaces, e.p); }
  }

  lemma InitKeeps(m: Machine)
    requires Init(m.memory) && NoSpaces(m.spaces)
    ensures MachineInv(m, [])
  {
    assert forall a: nat, v: nat, f: nat :: !Maps(m.memory, a, v, f);
  }

  /** In every balanced run the TLB is coherent, frames in use are pinned and not shared, and the pins of
      every frame are those outstanding and that of its page. */
  lemma {:induction false} RunKeeps(states: seq<Machine>, events: seq<Event>, i: nat)
    requires Run(states, events) && i < |states|
    ensures MachineInv(states[i], events[..i])
  {
    if i == 0 {
      InitKeeps(states[0]);
    } else {
      RunKeeps(states, events, i - 1);
      StepKeeps(states[i - 1], events[i - 1], states[i], events[..i - 1]);
      assert events[..i] == events[..i - 1] + [events[i - 1]];
    }
  }

  /** In no run do two pages share a frame. */
  lemma PagesIsolated(states: seq<Machine>, events: seq<Event>, i: nat, a: nat, v: nat, a': nat, v': nat, f: nat)
    requires Run(states, events) && i < |states|
    requires Maps(states[i].memory, a, v, f) && Maps(states[i].memory, a', v', f)
    ensures a == a' && v == v'
  {
    RunKeeps(states, events, i);
  }

  /** Page `vpn` of process `p` is in frame `f`. */
  predicate ProcessMaps(m: Machine, p: nat, vpn: nat, f: nat) {
    p < |m.spaces.asids| && m.spaces.asids[p] != 0 && Maps(m.memory, m.spaces.asids[p], vpn, f)
  }

  /** In every run, another process has a page in the frame of a page of `p` if and only if it is the page of
      the same number and the two processes have the same identifier. */
  lemma FrameSharedIff(states: seq<Machine>, events: seq<Event>, i: nat, p: nat, v: nat, q: nat, w: nat, f: nat)
    requires Run(states, events) && i < |states| && ProcessMaps(states[i], p, v, f)
    requires q < |states[i].spaces.asids| && states[i].spaces.asids[q] != 0
    ensures ProcessMaps(states[i], q, w, f) <==> w == v && states[i].spaces.asids[q] == states[i].spaces.asids[p]
  {
    RunKeeps(states, events, i);
  }

  /** As long as at most 255 processes have been switched to, processes do not share frames. */
  lemma ProcessesIsolated(states: seq<Machine>, events: seq<Event>, i: nat, p: nat, v: nat, q: nat, w: nat, f: nat)
    requires Run(states, events) && i < |states| && |states[i].spaces.order| <= ASIDS
    requires ProcessMaps(states[i], p, v, f) && ProcessMaps(states[i], q, w, f)
    ensures p == q && v == w
  {
    FrameSharedIff(states, events, i, p, v, q, w, f);
    RunKeeps(states, events, i);
    AsidsDistinctIff(states[i].spaces);
  }

  /** The processes 0 to n - 1 have been switched to, in that order. */
  predicate InTurn(sp: Spaces, n: nat) { |sp.order| == n && forall k | 0 <= k < n :: sp.order[k] == k }

  lemma RunGoesOn(states: seq<Machine>, events: seq<Event>, e: Event, m: Machine)
    requires Run(states, events) && Step(states[|events|], e, m) && !e.UnpinEvent?
    ensures Run(states + [m], events + [e])
  {
    StillBalanced(events, e);
    var states', events' := states + [m], events + [e];
    forall i | 0 <= i < |events'| ensures Step(states'[i], events'[i], states'[i + 1]) {
      if i < |events| { assert Step(states[i], events[i], states[i + 1]); }
    }
  }

  lemma NextInTurn(m: Machine, n: nat)
    requires SpacesInv(m.spaces) && InTurn(m.spaces, n) && n < |m.spaces.asids|
    ensures InTurn(AfterSwitch(m, n).spaces, n + 1) && |AfterSwitch(m, n).spaces.asids| == |m.spaces.asids|
  {
    assert n !in m.spaces.order;
  }

  lemma PrefixOfPrefix<T>(s: seq<T>, x: T, longer: seq<T>)
    requires |s| + 1 <= |longer| && longer[..|s + [x]|] == s + [x]
    ensures longer[..|s|] == s
  {
    assert longer[..|s|] == longer[..|s| + 1][..|s|];
  }

  /** A run can go on by switching to the processes that are left, in turn. */
  lemma {:induction false} SwitchInTurn(states: seq<Machine>, events: seq<Event>, n: nat, more: nat)
    returns (states': seq<Machine>, events': seq<Event>)
    requires Run(states, events) && InTurn(states[|events|].spaces, n)
    requires n + more <= |states[|events|].spaces.asids|
    ensures Run(states', events') && |events'| == |events| + more
    ensures states'[..|states|] == states && events'[..|events|] == events
    ensures InTurn(states'[|events'|].spaces, n + more)
    decreases more
  {
    if more == 0 {
      states', events' := states, events;
    } else {
      var m := AfterSwitch(states[|events|], n);
      RunKeeps(states, events, |events|);
      NextInTurn(states[|events|], n);
      RunGoesOn(states, events, SwitchEvent(n), m);
      states', events' := SwitchInTurn(states + [m], events + [SwitchEvent(n)], n + 1, more - 1);
      PrefixOfPrefix(states, m, states');
      PrefixOfPrefix(events, SwitchEvent(n), events');
    }
  }

  lemma StillBalanced(events: seq<Event>, e: Event)
    requires Balanced(events) && !e.UnpinEvent?
    ensures Balanced(events + [e])
  {
    forall i | 0 <= i < |events + [e]| && (events + [e])[i].UnpinEvent?
      ensures Outstanding((events + [e])[..i], (events + [e])[i].pfn) > 0
    {
      assert (events + [e])[..i] == events[..i];
    }
  }

  lemma {:induction false} MappingPersists(states: seq<Machine>, events: seq<Event>, i: nat, j: nat, a: nat, v: nat,
                                           f: nat)
    requires Run(states, events) && i <= j < |states| && Maps(states[i].memory, a, v, f)
    ensures Maps(states[j].memory, a, v, f)
    decreases j - i
  {
    if i < j {
      MappingPersists(states, events, i, j - 1, a, v, f);
      RunKeeps(states, events, j - 1);
      StepPersists(states[j - 1], events[j - 1], states[j], events[..j - 1], a, v, f);
    }
  }

  lemma StepPersists(m: Machine, e: Event, m': Machine, events: seq<Event>, a: nat, v: nat, f: nat)
    requires MachineInv(m, events) && Step(m, e, m') && Maps(m.memory, a, v, f)
    requires e.UnpinEvent? ==> Outstanding(events, e.pfn) > 0
    ensures Maps(m'.memory, a, v, f)
  {
    StepKeeps(m, e, m', events);
  }

  /** Process 0 is switched to and touches a page, which gets frame 0. */
  lemma FirstPage(m0: Machine, v: nat) returns (states: seq<Machine>, events: seq<Event>)
    requires Init(m0.memory) && NoSpaces(m0.spaces) && |m0.spaces.asids| > 0
    requires |m0.memory.pins| > 0 && InTables(m0.memory, 1, v)
    ensures Run(states, events) && events == [SwitchEvent(0), TranslateEvent(1, v, Some(0))]
    ensures states[0] == m0 && |states[2].spaces.asids| == |m0.spaces.asids| && InTurn(states[2].spaces, 1)
    ensures Maps(states[2].memory, 1, v, 0)
  {
    var m1 := AfterSwitch(m0, 0);
    var (s, frame) := Translate(m1.memory, 1, v);
    WalkMaps(m1.memory, 1, v);
    assert Run([m0], []);
    RunGoesOn([m0], [], SwitchEvent(0), m1);
    RunKeeps([m0, m1], [SwitchEvent(0)], 1);
    TlbTransparent(m1.memory, 1, v);
    RunGoesOn([m0, m1], [SwitchEvent(0)], TranslateEvent(1, v, frame), m1.(memory := s));
    states, events := [m0, m1, m1.(memory := s)], [SwitchEvent(0), TranslateEvent(1, v, frame)];
  }

  /** The bound is exact: the 256th process that is switched to gets the identifier of the first, and with
      it all its pages.  Here the first has touched page `v` before the others are switched to, and both
      processes then have it in the same frame. */
  lemma IdentifiersRunOut(m0: Machine, v: nat) returns (states: seq<Machine>, events: seq<Event>)
    requires Init(m0.memory) && NoSpaces(m0.spaces) && |m0.spaces.asids| > ASIDS
    requires |m0.memory.pins| > 0 && InTables(m0.memory, 1, v)
    ensures Run(states, events) && |events| == ASIDS + 2 && states[0] == m0
    ensures |states[|events|].spaces.order| == ASIDS + 1 && !Distinct(states[|events|].spaces)
    ensures ProcessMaps(states[|events|], 0, v, 0) && ProcessMaps(states[|events|], ASIDS, v, 0)
    ensures forall w: nat, f: nat ::
      ProcessMaps(states[|events|], 0, w, f) <==> ProcessMaps(states[|events|], ASIDS, w, f)
  {
    var states1, events1 := FirstPage(m0, v);
    states, events := SwitchInTurn(states1, events1, 1, ASIDS);
    assert states[0] == states[..3][0] && states[2] == states[..3][2];
    MappingPersists(states, events, 2, |events|, 1, v, 0);
    RunKeeps(states, events, |events|);
    var sp := states[|events|].spaces;
    AsidsDistinctIff(sp);
    assert sp.asids[sp.order[0]] == 1 && sp.asids[sp.order[ASIDS]] == 1;
  }

  /** A page that has been translated once is translated to the same frame ever after, whatever is
      flushed, pinned, unpinned, switched or translated in between. */
  lemma TranslationStable(states: seq<Machine>, events: seq<Event>, i: nat, j: nat)
    requires Run(states, events) && i <= j < |events|
    requires events[i].TranslateEvent? && events[j].TranslateEvent? && events[i].frame.Some?
    requires events[i].asid == events[j].asid && events[i].vpn == events[j].vpn
    ensures events[j].frame == events[i].frame
  {
    var asid, vpn := events[i].asid, events[i].vpn;
    RunKeeps(states, events, i);
    RunKeeps(states, events, j);
    assert Step(states[i], events[i], states[i + 1]) && Step(states[j], events[j], states[j + 1]);
    TlbTransparent(states[i].memory, asid, vpn);
    TlbTransparent(states[j].memory, asid, vpn);
    WalkMaps(states[i].memory, asid, vpn);
    assert Maps(states[i + 1].memory, asid, vpn, events[i].frame.value);
    if i < j { MappingPersists(states, events, i + 1, j, asid, vpn, events[i].frame.value); }
  }

  /** The step of the machine without a TLB that has the same event. */
  ghost predicate ShadowStep(m: Machine, e: Event, m': Machine) {
    match e
    case TranslateEvent(asid, vpn, frame) =>
      InTables(m.memory, asid, vpn) && (m'.memory, frame) == Walk(m.memory, asid, vpn) && m' == m.(memory := m'.memory)
    case FlushEntryEvent(_, _) => m' == m
    case FlushAllEvent => m' == m
    case PinEvent(pfn) =>
      pfn < |m.memory.pins| && m' == m.(memory := m.memory.(pins := Pin(m.memory.pins, pfn)))
    case UnpinEvent(pfn) =>
      pfn < |m.memory.pins| && m' == m.(memory := m.memory.(pins := Unpin(m.memory.pins, pfn)))
    case SwitchEvent(p) =>
      p < |m.spaces.asids| && var spaces := Switch(m.spaces, p).0;
      m' == m.(spaces := spaces, current := spaces.asids[p])
  }

  function WithoutTlb(m: Machine): Machine { m.(memory := m.memory.(tlb := [])) }

  /** Every run is, seen from outside, a run of the machine without a TLB: same frames returned, same
      pins, same page tables, same identifiers. */
  lemma RunRefinesMachineWithoutTlb(states: seq<Machine>, events: seq<Event>, i: nat)
    requires Run(states, events) && i < |events|
    ensures ShadowStep(WithoutTlb(states[i]), events[i], WithoutTlb(states[i + 1]))
  {
    RunKeeps(states, events, i);
    assert Step(states[i], events[i], states[i + 1]);
    if events[i].TranslateEvent? {
      TlbTransparent(states[i].memory, events[i].asid, events[i].vpn);
    }
  }

  // ---------------------------------------------------------------------------------------------
  // The system
  // ---------------------------------------------------------------------------------------------

  class System {
    const memory: array<int>         // pin counts
    const pageTables: array2<nat>    // by address space and page
    const tlb: array<Entry>
    const asids: array<nat>
    var nextAsid: nat
    var currentAsid: nat
    ghost var order: seq<nat>

    ghost predicate Valid()
      reads this
    {
      && memory as object != asids
      && memory.Length < 0x10_0000_0000_0000   // a memory size in bytes fits into size_t
      && asids.Length <= MAX_PROCESSES && nextAsid < 256
    }

    ghost function Tables(): (t: seq<seq<nat>>)
      reads pageTables
      ensures |t| == pageTables.Length0 && forall a | 0 <= a < |t| :: |t[a]| == pageTables.Length1
      ensures forall a, v | 0 <= a < |t| && 0 <= v < pageTables.Length1 :: t[a][v] == pageTables[a, v]
    {
      seq(pageTables.Length0, a requires 0 <= a < pageTables.Length0 reads pageTables =>
        seq(pageTables.Length1, v requires 0 <= v < pageTables.Length1 reads pageTables => pageTables[a, v]))
    }

    ghost function View(): State
      reads memory, pageTables, tlb
    {
      State(memory[..], Tables(), tlb[..])
    }

    ghost function ViewSpaces(): Spaces
      reads this, asids
    {
      Spaces(asids[..], nextAsid, order)
    }

    ghost function ViewMachine(): Machine
      reads this, memory, pageTables, tlb, asids
    {
      Machine(View(), ViewSpaces(), currentAsid)
    }

    /** `init_system`, with the page tables of all address spaces allocated and cleared. */
    constructor (frames: nat, pages: nat, tlbSize: nat)
      requires frames < 0x10_0000_0000_0000
      ensures Valid() && Init(View()) && NoSpaces(ViewSpaces())
      ensures memory.Length == frames && tlb.Length == tlbSize && pageTables.Length1 == pages
      ensures fresh(memory) && fresh(pageTables) && fresh(tlb) && fresh(asids)
    {
      memory := new int[frames](_ => 0);
      pageTables := new nat[MAX_PROCESSES, pages]((_, _) => 0);
      tlb := new Entry[tlbSize](_ => Entry(0, 0, 0, false));
      asids := new nat[MAX_PROCESSES](_ => 0);
      nextAsid, currentAsid, order := 1, 0, [];
    }

    method AllocatePage() returns (pfn: nat)
      requires Valid()
      modifies memory
      ensures FirstUnpinned(old(memory[..])) < memory.Length ==>
        pfn == FirstUnpinned(old(memory[..])) && memory[..] == old(memory[..])[pfn := 1]
      ensures FirstUnpinned(old(memory[..])) == memory.Length ==> pfn == FAILED && memory[..] == old(memory[..])
    {
      for i := 0 to memory.Length
        invariant memory[..] == old(memory[..]) && forall j | 0 <= j < i :: memory[j] != 0
      {
        if memory[i] == 0 {
          assert FirstUnpinned(memory[..]) == i;
          memory[i] := 1;
          return i;
        }
      }
      return FAILED;
    }

    method PinPage(pfn: nat)
      requires Valid() && pfn < memory.Length
      modifies memory
      ensures memory[..] == Pin(old(memory[..]), pfn)
    {
      memory[pfn] := memory[pfn] + 1;
    }

    method UnpinPage(pfn: nat)
      requires Valid() && pfn < memory.Length
      modifies memory
      ensures memory[..] == Unpin(old(memory[..]), pfn)
    {
      if memory[pfn] > 0 {
        memory[pfn] := memory[pfn] - 1;
      }
    }

    method FlushTlbEntry(vpn: nat, asid: nat)
      modifies tlb
      ensures tlb[..] == FlushEntry(old(tlb[..]), vpn, asid)
    {
      for i := 0 to tlb.Length
        invariant tlb[..] == old(tlb[..]) && forall j | 0 <= j < i :: !HasKey(tlb[j], vpn, asid)
      {
        if tlb[i].vpn == vpn && tlb[i].asid == asid {
          assert FirstWithKey(tlb[..], vpn, asid) == i;
          tlb[i] := tlb[i].(valid := false);
          return;
        }
      }
    }

    method FlushTlb()
      modifies tlb
      ensures tlb[..] == FlushAll(old(tlb[..]))
    {
      for i := 0 to tlb.Length
        invariant forall j | 0 <= j < i :: tlb[j] == old(tlb[j]).(valid := false)
        invariant forall j | i <= j < tlb.Length :: tlb[j] == old(tlb[j])
      {
        tlb[i] := tlb[i].(valid := false);
      }
    }

    /** The scan that takes a free TLB entry. */
    method FillTlb(e: Entry)
      modifies tlb
      ensures tlb[..] == Fill(old(tlb[..]), e)
    {
      for i := 0 to tlb.Length
        invariant tlb[..] == old(tlb[..]) && forall j | 0 <= j < i :: tlb[j].valid
      {
        if !tlb[i].valid {
          assert FirstInvalid(tlb[..]) == i;
          tlb[i] := e;
          return;
        }
      }
    }

    /** The scan for a hit. */
    method FindInTlb(vpn: nat, asid: nat) returns (i: nat)
      ensures i == Lookup(tlb[..], vpn, asid)
    {
      for k := 0 to tlb.Length
        invariant forall j | 0 <= j < k :: !Hits(tlb[j], vpn, asid)
      {
        if tlb[k].valid && tlb[k].vpn == vpn && tlb[k].asid == asid {
          return k;
        }
      }
      return tlb.Length;
    }

    /** The page-table part of a translation. */
    method WalkTable(vpn: nat, asid: nat) returns (frame: Option<nat>)
      requires Valid() && InTables(View(), asid, vpn)
      modifies memory, pageTables
      ensures (View(), frame) == Walk(old(View()), asid, vpn)
    {
      ghost var s := View();
      var pte := pageTables[asid, vpn];
      if !Present(pte) {
        var pfn := AllocatePage();
        if pfn == FAILED {
          return None;
        }
        pageTables[asid, vpn] := Encode(pfn);
        EncodeRoundTrip(pfn);
        forall a | 0 <= a < pageTables.Length0 ensures Tables()[a] == Install(s.tables, asid, vpn, Encode(pfn))[a] {
          assert forall v | 0 <= v < pageTables.Length1 :: Tables()[a][v] == pageTables[a, v];
        }
        assert Tables() == Install(s.tables, asid, vpn, Encode(pfn));
        pte := pageTables[asid, vpn];
      }
      frame := Some(Frame(pte));
    }

    /** `translate_address`: the physical address, or all ones when no frame is left.  The two cannot
        be confused. */
    method TranslateAddress(vaddr: nat, asid: nat) returns (paddr: nat)
      requires Valid() && Inv(View()) && InTables(View(), asid, vaddr / PAGE_SIZE)
      modifies memory, pageTables, tlb
      ensures Inv(View()) && View() == Translate(old(View()), asid, vaddr / PAGE_SIZE).0
      ensures match Translate(old(View()), asid, vaddr / PAGE_SIZE).1
        case None => paddr == FAILED
        case Some(pfn) => paddr == pfn * PAGE_SIZE + vaddr % PAGE_SIZE && paddr < FAILED
    {
      var vpn, offset := vaddr / PAGE_SIZE, vaddr % PAGE_SIZE;
      TranslateKeeps(View(), asid, vpn);
      var i := FindInTlb(vpn, asid);
      if i < tlb.Length {
        assert Maps(View(), tlb[i].asid, tlb[i].vpn, tlb[i].pfn);
        return tlb[i].pfn * PAGE_SIZE + offset;
      }
      WalkMaps(View(), asid, vpn);
      WalkKeeps(View(), asid, vpn);
      var frame := WalkTable(vpn, asid);
      if frame == None {
        return FAILED;
      }
      assert Maps(View(), asid, vpn, frame.value);
      FillTlb(Entry(vpn, frame.value, asid, true));
      return frame.value * PAGE_SIZE + offset;
    }

    method SwitchProcess(p: nat)
      requires Valid() && p < asids.Length
      modifies this, asids, tlb
      ensures Valid() && ViewMachine() == AfterSwitch(old(ViewMachine()), p)
    {
      if asids[p] == 0 {
        asids[p] := nextAsid;
        order := order + [p];
        nextAsid := (nextAsid + 1) % 256;
        if nextAsid == 0 {
          FlushTlb();
          nextAsid := 1;
        }
      }
      currentAsid := asids[p];
    }
  }
}
