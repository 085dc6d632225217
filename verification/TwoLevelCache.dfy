/** The two-level direct-mapped cache of memory/cache/Two-Level-Cache-System.c.

    Nothing in the code keeps the levels in step, and nothing invalidates.  The theorem is a closed
    form for whole runs: in both levels, the line at an index holds the block of the most recent access
    with that index.  Exact hits, coherence and inclusion of the first level in the second follow.
    The numbers of lines are parameters; the first must divide the second.
 */
module TwoLevelCache {
  import opened Common

  const BLOCK_SIZE := 8

  type Byte = b: int | 0 <= b < 0x100

  const WORD := 0x1_0000_0000   // addresses are 32 bits wide

  type Address = a: int | 0 <= a < WORD

  /** What an access yields; `Unspecified` stands for bytes read outside the memory. */
  datatype Access = Bytes(data: seq<Byte>) | OutOfBounds | Unspecified

  datatype Line = Line(tag: nat, data: seq<Byte>, valid: bool)

  function CalculateTag(address: nat, lines: nat): nat
    requires lines > 0
  {
    address / BLOCK_SIZE / lines
  }

  function CalculateIndex(address: nat, lines: nat): (i: nat)
    requires lines > 0
    ensures i < lines
  {
    (address / BLOCK_SIZE) % lines
  }

  /** Tag and index together identify the block. */
  lemma TagAndIndexIdentify(a: nat, b: nat, lines: nat)
    requires lines > 0
    ensures a / lines == b / lines && a % lines == b % lines <==> a == b
  {
    assert a == (a / lines) * lines + a % lines && b == (b / lines) * lines + b % lines;
  }

  // ---------------------------------------------------------------------------------------------
  // Most recent accesses
  // ---------------------------------------------------------------------------------------------

  /** The most recent block of the history with a given index, if any. */
  ghost function Latest(history: seq<nat>, lines: nat, index: nat): Option<nat>
    requires lines > 0
  {
    if history == [] then None
    else if history[|history| - 1] % lines == index then Some(history[|history| - 1])
    else Latest(history[..|history| - 1], lines, index)
  }

  lemma LatestAppend(history: seq<nat>, block: nat, lines: nat, index: nat)
    requires lines > 0
    ensures Latest(history + [block], lines, index)
      == if block % lines == index then Some(block) else Latest(history, lines, index)
  {
    assert (history + [block])[..|history|] == history;
  }

  lemma {:induction false} LatestHasIndex(history: seq<nat>, lines: nat, index: nat)
    requires lines > 0 && Latest(history, lines, index).Some?
    ensures Latest(history, lines, index).value in history && Latest(history, lines, index).value % lines == index
  {
    if history[|history| - 1] % lines != index {
      LatestHasIndex(history[..|history| - 1], lines, index);
    }
  }

  /** The latest block of an index is one of the history after which none has that index. */
  lemma {:induction false} LatestIff(history: seq<nat>, lines: nat, index: nat, block: nat)
    requires lines > 0
    ensures Latest(history, lines, index) == Some(block) <==>
      exists i :: 0 <= i < |history| && IsLast(history, lines, index, i) && history[i] == block
  {
    if history != [] {
      var last := |history| - 1;
      var rest := history[..last];
      assert forall j | 0 <= j < last :: rest[j] == history[j];
      LatestIff(rest, lines, index, block);
      if history[last] % lines == index {
        assert IsLast(history, lines, index, last);
        assert forall i | 0 <= i < last :: !IsLast(history, lines, index, i);
      } else {
        assert !IsLast(history, lines, index, last);
        assert forall i | 0 <= i < last :: IsLast(history, lines, index, i) <==> IsLast(rest, lines, index, i);
      }
    }
  }

  ghost predicate IsLast(history: seq<nat>, lines: nat, index: nat, i: nat)
    requires lines > 0
  {
    i < |history| && history[i] % lines == index && forall j | i < j < |history| :: history[j] % lines != index
  }

  /** Equal indices in the larger level are equal indices in the smaller one. */
  lemma FinerIndex(a: nat, b: nat, lines1: nat, factor: nat)
    requires lines1 > 0 && factor > 0 && a % (factor * lines1) == b % (factor * lines1)
    ensures a % lines1 == b % lines1
  {
    ModOfMod(a, lines1, factor);
    ModOfMod(b, lines1, factor);
  }

  lemma ModOfMod(a: nat, lines1: nat, factor: nat)
    requires lines1 > 0 && factor > 0
    ensures a % (factor * lines1) % lines1 == a % lines1
  {
    var lines2 := factor * lines1;
    var q, r := a / lines2, a % lines2;
    assert a == (q * factor) * lines1 + r;
    ModShift(r, q * factor, lines1);
  }

  lemma MultiplesApart(p: nat, q: nat, n: nat)
    ensures p < q ==> p * n + n <= q * n
  {
    if p < q { assert (p + 1) * n <= q * n; }
  }

  /** Quotient and remainder are unique. */
  lemma ModUnique(x: nat, q: nat, r: nat, n: nat)
    requires r < n && x == q * n + r
    ensures x % n == r
  {
    var p := x / n;
    assert x == p * n + x % n;
    MultiplesApart(p, q, n);
    MultiplesApart(q, p, n);
  }

  lemma ModShift(r: nat, k: nat, n: nat)
    requires n > 0
    ensures (k * n + r) % n == r % n
  {
    assert r == (r / n) * n + r % n;
    assert k * n + r == (k + r / n) * n + r % n;
    ModUnique(k * n + r, k + r / n, r % n, n);
  }

  /** Inclusion: the block that is latest for its index in the small level is latest for its index in
      the large level, because whatever pushes it out of the large level has the same small index. */
  lemma {:induction false} LatestIncluded(history: seq<nat>, lines1: nat, factor: nat, index: nat)
    requires lines1 > 0 && factor > 0 && Latest(history, lines1, index).Some?
    ensures factor * lines1 > 0
    ensures var block := Latest(history, lines1, index).value;
      Latest(history, factor * lines1, block % (factor * lines1)) == Some(block)
  {
    var last := history[|history| - 1];
    if last % lines1 != index {
      LatestIncluded(history[..|history| - 1], lines1, factor, index);
      LatestHasIndex(history[..|history| - 1], lines1, index);
      var block := Latest(history, lines1, index).value;
      if last % (factor * lines1) == block % (factor * lines1) {
        FinerIndex(last, block, lines1, factor);
      }
    }
  }

  // ---------------------------------------------------------------------------------------------
  // The cache
  // ---------------------------------------------------------------------------------------------

  function Block(memory: seq<Byte>, block: nat): seq<Byte>
    requires (block + 1) * BLOCK_SIZE <= |memory|
  {
    memory[block * BLOCK_SIZE..(block + 1) * BLOCK_SIZE]
  }

  ghost predicate InMemory(memory: seq<Byte>, block: nat) { (block + 1) * BLOCK_SIZE <= |memory| }

  /** The eight bytes of the memory around the address, from the last multiple of eight on. */
  ghost predicate Reads(memory: seq<Byte>, address: nat, data: seq<Byte>) {
    var start := address - address % 8;
    start + 8 <= |memory| && |data| == 8 && forall k | 0 <= k < 8 :: data[k] == memory[start + k]
  }

  lemma BlockReads(memory: seq<Byte>, address: nat)
    requires InMemory(memory, address / BLOCK_SIZE)
    ensures Reads(memory, address, Block(memory, address / BLOCK_SIZE))
  {
  }

  /** The bound check of `memory_access`, in 32-bit arithmetic. */
  predicate BoundCheck(address: Address, size: nat) { (address - address % BLOCK_SIZE + BLOCK_SIZE) % WORD <= size }

  /** The check accepts every block of the memory, and a block outside it exactly in the last 8 bytes of the
      address space, where the sum wraps round. */
  lemma BoundCheckIff(address: Address, memory: seq<Byte>)
    requires |memory| < WORD
    ensures InMemory(memory, address / BLOCK_SIZE) ==> BoundCheck(address, |memory|)
    ensures BoundCheck(address, |memory|) && !InMemory(memory, address / BLOCK_SIZE) <==> address >= 0xFFFF_FFF8
  {
    var start := address - address % BLOCK_SIZE;
    assert start == address / BLOCK_SIZE * BLOCK_SIZE;
    if start + BLOCK_SIZE < WORD {
      assert (start + BLOCK_SIZE) % WORD == start + BLOCK_SIZE;
    } else {
      assert start + BLOCK_SIZE == WORD;
    }
  }

  /** The line holds exactly `content`: nothing, or a block with its tag and its bytes in memory. */
  ghost predicate Holds(line: Line, content: Option<nat>, lines: nat, memory: seq<Byte>)
    requires lines > 0
  {
    && line.valid == content.Some?
    && (content.Some? ==>
          && InMemory(memory, content.value) && line.tag == content.value / lines
          && line.data == Block(memory, content.value))
  }

  /** Every line holds the most recent block of its index. */
  ghost predicate Tracks(cache: seq<Line>, history: seq<nat>, memory: seq<Byte>) {
    |cache| > 0 && forall i | 0 <= i < |cache| :: Holds(cache[i], Latest(history, |cache|, i), |cache|, memory)
  }

  /** What `update_cache` writes. */
  function Updated(cache: seq<Line>, address: nat, data: seq<Byte>): seq<Line>
    requires |cache| > 0
  {
    cache[CalculateIndex(address, |cache|) := Line(CalculateTag(address, |cache|), data, true)]
  }

  /** A level that takes in the accessed block goes on tracking. */
  lemma UpdateTracks(cache: seq<Line>, history: seq<nat>, memory: seq<Byte>, address: nat)
    requires Tracks(cache, history, memory) && InMemory(memory, address / BLOCK_SIZE)
    ensures Tracks(Updated(cache, address, Block(memory, address / BLOCK_SIZE)), history + [address / BLOCK_SIZE],
        memory)
  {
    var block := address / BLOCK_SIZE;
    var cache' := Updated(cache, address, Block(memory, block));
    forall i | 0 <= i < |cache'| ensures Holds(cache'[i], Latest(history + [block], |cache'|, i), |cache'|, memory) {
      LatestAppend(history, block, |cache|, i);
    }
  }

  /** A level that already holds the accessed block goes on tracking unchanged. */
  lemma HitTracks(cache: seq<Line>, history: seq<nat>, memory: seq<Byte>, block: nat)
    requires Tracks(cache, history, memory) && Latest(history, |cache|, block % |cache|) == Some(block)
    ensures Tracks(cache, history + [block], memory)
  {
    forall i | 0 <= i < |cache| ensures Holds(cache[i], Latest(history + [block], |cache|, i), |cache|, memory) {
      LatestAppend(history, block, |cache|, i);
    }
  }

  /** A lookup hits exactly when the block is the most recent one of its index. */
  lemma HitIff(cache: seq<Line>, history: seq<nat>, memory: seq<Byte>, address: nat)
    requires Tracks(cache, history, memory)
    ensures var line := cache[CalculateIndex(address, |cache|)]; var block := address / BLOCK_SIZE;
      (line.valid && line.tag == CalculateTag(address, |cache|)) <==>
        Latest(history, |cache|, block % |cache|) == Some(block)
  {
    var block := address / BLOCK_SIZE;
    var index := CalculateIndex(address, |cache|);
    assert Holds(cache[index], Latest(history, |cache|, index), |cache|, memory);
    if Latest(history, |cache|, index).Some? {
      LatestHasIndex(history, |cache|, index);
      TagAndIndexIdentify(Latest(history, |cache|, index).value, block, |cache|);
    }
  }

  lemma HitHolds(cache: seq<Line>, history: seq<nat>, memory: seq<Byte>, block: nat)
    requires Tracks(cache, history, memory) && Latest(history, |cache|, block % |cache|) == Some(block)
    ensures InMemory(memory, block) && cache[block % |cache|].data == Block(memory, block)
  {
    assert Holds(cache[block % |cache|], Latest(history, |cache|, block % |cache|), |cache|, memory);
  }

  /** The first level is included in the second: every block it holds is held there too, with the same bytes. */
  lemma Inclusion(l1: seq<Line>, l2: seq<Line>, history: seq<nat>, memory: seq<Byte>, factor: nat, i: nat)
    requires Tracks(l1, history, memory) && Tracks(l2, history, memory)
    requires factor > 0 && |l2| == factor * |l1| && i < |l1| && l1[i].valid
    ensures var block := l1[i].tag * |l1| + i; var line := l2[block % |l2|];
      line.valid && line.tag == block / |l2| && line.data == l1[i].data
  {
    var block := HeldBlock(l1, history, memory, i);
    LatestIncluded(history, |l1|, factor, i);
    assert Holds(l2[block % |l2|], Latest(history, |l2|, block % |l2|), |l2|, memory);
  }

  /** The block in a valid line, from its tag and index. */
  lemma HeldBlock(cache: seq<Line>, history: seq<nat>, memory: seq<Byte>, i: nat) returns (block: nat)
    requires Tracks(cache, history, memory) && i < |cache| && cache[i].valid
    ensures Latest(history, |cache|, i) == Some(block) && block == cache[i].tag * |cache| + i
    ensures InMemory(memory, block) && cache[i].data == Block(memory, block)
  {
    assert Holds(cache[i], Latest(history, |cache|, i), |cache|, memory);
    block := Latest(history, |cache|, i).value;
    LatestHasIndex(history, |cache|, i);
    assert block == (block / |cache|) * |cache| + block % |cache|;
  }

  class CacheSystem {
    const memory: seq<Byte>
    const l1: array<Line>
    const l2: array<Line>
    ghost const factor: nat
    var l1Hits: nat
    var l1Misses: nat
    var l2Hits: nat
    var l2Misses: nat
    ghost var history: seq<nat>   // the blocks accessed so far, in-range accesses only

    ghost predicate Valid()
      reads this, l1, l2
    {
      && l1 != l2 && factor > 0 && l2.Length == factor * l1.Length && |memory| < WORD
      && Tracks(l1[..], history, memory) && Tracks(l2[..], history, memory)
      && forall b | b in history :: InMemory(memory, b)
    }

    constructor (memory: seq<Byte>, lines1: nat, ghost factor: nat, lines2: nat)
      requires lines1 > 0 && factor > 0 && lines2 == factor * lines1 && |memory| < WORD
      ensures Valid() && history == [] && this.memory == memory && l1.Length == lines1 && l2.Length == lines2
      ensures l1Hits == l1Misses == l2Hits == l2Misses == 0
      ensures fresh(l1) && fresh(l2)
    {
      this.memory := memory;
      this.factor := factor;
      l1 := new Line[lines1](_ => Line(0, [], false));
      l2 := new Line[lines2](_ => Line(0, [], false));
      l1Hits, l1Misses, l2Hits, l2Misses, history := 0, 0, 0, 0, [];
      new;
      MultiplesApart(0, factor, lines1);
    }

    static method CheckCache(cache: array<Line>, address: nat) returns (data: Option<seq<Byte>>)
      requires cache.Length > 0
      ensures var line := cache[CalculateIndex(address, cache.Length)];
        data == if line.valid && line.tag == CalculateTag(address, cache.Length) then Some(line.data) else None
    {
      var tag, index := CalculateTag(address, cache.Length), CalculateIndex(address, cache.Length);
      if cache[index].valid && cache[index].tag == tag {
        return Some(cache[index].data);
      }
      return None;
    }

    static method UpdateCache(cache: array<Line>, address: nat, data: seq<Byte>)
      requires cache.Length > 0
      modifies cache
      ensures cache[..] == Updated(old(cache[..]), address, data)
    {
      var tag, index := CalculateTag(address, cache.Length), CalculateIndex(address, cache.Length);
      cache[index] := Line(tag, data, true);
    }

    /** The bytes of a block that is in neither level. */
    method ReadMemory(address: Address) returns (access: Access)
      requires Valid()
      modifies l1, l2, this`history
      ensures Valid() && access == AccessOf(address)
      ensures access.Bytes? ==> history == old(history) + [address / BLOCK_SIZE]
      ensures !access.Bytes? ==> history == old(history) && l1[..] == old(l1[..]) && l2[..] == old(l2[..])
    {
      ghost var block := address / BLOCK_SIZE;
      BoundCheckIff(address, memory);
      if !BoundCheck(address, |memory|) {
        return OutOfBounds;
      }
      var blockStart := address - address % BLOCK_SIZE;
      if blockStart + BLOCK_SIZE > |memory| {
        return Unspecified;
      }
      var data := memory[blockStart..blockStart + BLOCK_SIZE];
      assert data == Block(memory, block);
      UpdateTracks(l2[..], history, memory, address);
      UpdateTracks(l1[..], history, memory, address);
      UpdateCache(l2, address, data);
      UpdateCache(l1, address, data);
      history := history + [block];
      return Bytes(data);
    }

    /** What an access must yield, whatever is cached. */
    ghost function AccessOf(address: Address): Access {
      if InMemory(memory, address / BLOCK_SIZE) then Bytes(Block(memory, address / BLOCK_SIZE))
      else if address >= 0xFFFF_FFF8 then Unspecified
      else OutOfBounds
    }

    /** `memory_access`: the bytes of the addressed block, from whichever level has it.  An access outside
        the memory only counts as a miss; in the last 8 bytes of the address space it reads outside. */
    method MemoryAccess(address: Address) returns (access: Access)
      requires Valid()
      modifies this, l1, l2
      ensures Valid() && access == AccessOf(address)
      ensures access.Bytes? ==> Reads(memory, address, access.data)
      ensures access.Bytes? ==> history == old(history) + [address / BLOCK_SIZE]
      ensures !access.Bytes? ==> history == old(history) && l1[..] == old(l1[..]) && l2[..] == old(l2[..])
      ensures var block := address / BLOCK_SIZE;
        var hit1 := Latest(old(history), l1.Length, block % l1.Length) == Some(block);
        var hit2 := Latest(old(history), l2.Length, block % l2.Length) == Some(block);
        && l1Hits == old(l1Hits) + (if hit1 then 1 else 0)
        && l2Hits == old(l2Hits) + (if !hit1 && hit2 then 1 else 0)
        && l2Misses == old(l2Misses) + (if !hit1 && !hit2 then 1 else 0)
        && l1Misses == old(l1Misses)
    {
      ghost var block := address / BLOCK_SIZE;
      if InMemory(memory, block) { BlockReads(memory, address); }
      HitIff(l1[..], history, memory, address);
      HitIff(l2[..], history, memory, address);
      var data := CheckCache(l1, address);
      if data.Some? {
        l1Hits := l1Hits + 1;
        HitHolds(l1[..], history, memory, block);
        LatestIncluded(history, l1.Length, factor, block % l1.Length);
        HitTracks(l1[..], history, memory, block);
        HitTracks(l2[..], history, memory, block);
        history := history + [block];
        return Bytes(data.value);
      }
      data := CheckCache(l2, address);
      if data.Some? {
        l2Hits := l2Hits + 1;
        HitHolds(l2[..], history, memory, block);
        HitTracks(l2[..], history, memory, block);
        UpdateTracks(l1[..], history, memory, address);
        UpdateCache(l1, address, data.value);
        history := history + [block];
        return Bytes(data.value);
      }
      l2Misses := l2Misses + 1;
      access := ReadMemory(address);
    }
  }
}
