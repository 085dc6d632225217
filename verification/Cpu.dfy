/** The five-stage pipelined processor of os/cpu/cpu.c.

    The pipeline has no forwarding and no interlock: an instruction is executed while the two
    instructions before it are still in flight.  The theorems say exactly which instruction set
    the pipeline implements (`Delayed`), and when that is the ordinary one (`Sequential`).
 */
module Cpu {
  import opened Common

  const MEMORY_SIZE := 1024
  const NUM_REGISTERS := 16
  const PIPELINE_STAGES := 5
  const LAST_WORD := MEMORY_SIZE / 4 - 1
  const ADD := 0

  type Byte = b: int | 0 <= b < 0x100
  type Word = w: int | 0 <= w < 0x1_0000_0000

  type Memory = m: seq<Byte> | |m| == MEMORY_SIZE witness seq(MEMORY_SIZE, _ => 0)
  type Registers = r: seq<Word> | |r| == NUM_REGISTERS witness seq(NUM_REGISTERS, _ => 0)

  datatype Instruction = Instruction(opcode: Byte, rd: Byte, rs: Byte, rt: Byte)

  datatype Stage = Stage(pc: Word, inst: Instruction, result: Word, valid: bool)

  // ---------------------------------------------------------------------------------------------
  // The instruction sets
  // ---------------------------------------------------------------------------------------------

  function Max(a: int, b: int): int { if a < b then b else a }

  function WordAt(mem: Memory, word: nat): Instruction
    requires word <= LAST_WORD
  {
    Instruction(mem[4 * word], mem[4 * word + 1], mem[4 * word + 2], mem[4 * word + 3])
  }

  /** The `j`-th instruction to enter the pipeline.  Fetching stops at the end of memory without
      clearing the first stage, so the last word keeps entering the pipeline for ever. */
  function Fetched(mem: Memory, j: nat): Instruction {
    WordAt(mem, Min(j, LAST_WORD))
  }

  predicate NamesRegisters(inst: Instruction) {
    inst.opcode == ADD ==> inst.rd < NUM_REGISTERS && inst.rs < NUM_REGISTERS && inst.rt < NUM_REGISTERS
  }

  /** No ADD in memory names a register that does not exist. */
  ghost predicate Executable(mem: Memory) {
    forall word: nat | word <= LAST_WORD :: NamesRegisters(WordAt(mem, word))
  }

  /** Unsigned 32-bit addition. */
  function Sum(a: int, b: int): (r: Word) {
    (a + b) % 0x1_0000_0000
  }

  function Compute(inst: Instruction, operands: Registers): Word
    requires NamesRegisters(inst)
  {
    if inst.opcode == ADD then Sum(operands[inst.rs], operands[inst.rt]) else 0
  }

  function Commit(inst: Instruction, value: Word, regs: Registers): Registers
    requires NamesRegisters(inst)
  {
    if inst.opcode == ADD then regs[inst.rd := value] else regs
  }

  /** The ordinary instruction set: every instruction sees the effect of all earlier ones. */
  ghost function Sequential(mem: Memory, regs: Registers, n: nat): Registers
    requires Executable(mem)
  {
    if n == 0 then regs else
      var before := Sequential(mem, regs, n - 1);
      var inst := Fetched(mem, n - 1);
      Commit(inst, Compute(inst, before), before)
  }

  /** The delayed-read instruction set: instruction `j` sees the effect of instructions
      `0 .. j-3` only, and still writes in order. */
  ghost function Delayed(mem: Memory, regs: Registers, n: nat): Registers
    requires Executable(mem)
  {
    if n == 0 then regs else
      var inst := Fetched(mem, n - 1);
      Commit(inst, Compute(inst, Delayed(mem, regs, Max(0, n - 3))), Delayed(mem, regs, n - 1))
  }

  // ---------------------------------------------------------------------------------------------
  // When the two instruction sets agree
  // ---------------------------------------------------------------------------------------------

  predicate ReadsResultOf(inst: Instruction, earlier: Instruction) {
    inst.opcode == ADD && earlier.opcode == ADD && (inst.rs == earlier.rd || inst.rt == earlier.rd)
  }

  /** No instruction among the first `n` reads a register written by one of its two predecessors. */
  ghost predicate HazardFree(mem: Memory, n: nat) {
    forall i: nat, j: nat | i < j < n && j - i <= 2 :: !ReadsResultOf(Fetched(mem, j), Fetched(mem, i))
  }

  /** Instruction `j` of the sequential run would compute the same value from the registers as they
      were two instructions earlier. */
  ghost predicate StaleReadHarmless(mem: Memory, regs: Registers, j: nat)
    requires Executable(mem)
  {
    var inst := Fetched(mem, j);
    Compute(inst, Sequential(mem, regs, Max(0, j - 2))) == Compute(inst, Sequential(mem, regs, j))
  }

  /** The two instruction sets agree at every point of the first `n` instructions. */
  ghost predicate Agree(mem: Memory, regs: Registers, n: nat)
    requires Executable(mem)
  {
    forall m: nat | m <= n :: Delayed(mem, regs, m) == Sequential(mem, regs, m)
  }

  /** The pipeline agrees with the ordinary instruction set at every point of the first `n`
      instructions if and only if every stale read along the sequential run is harmless. */
  lemma DelayedIsSequentialIff(mem: Memory, regs: Registers, n: nat)
    requires Executable(mem)
    ensures Agree(mem, regs, n) <==> forall j: nat | j < n :: StaleReadHarmless(mem, regs, j)
  {
    if forall j: nat | j < n :: StaleReadHarmless(mem, regs, j) {
      forall m: nat | m <= n ensures Delayed(mem, regs, m) == Sequential(mem, regs, m) {
        HarmlessReadsAgree(mem, regs, n, m);
      }
    }
    if Agree(mem, regs, n) {
      forall j: nat | j < n ensures StaleReadHarmless(mem, regs, j) {
        AgreementIsHarmless(mem, regs, n, j);
      }
    }
  }

  lemma {:induction false} HarmlessReadsAgree(mem: Memory, regs: Registers, n: nat, m: nat)
    requires Executable(mem) && m <= n
    requires forall j: nat | j < n :: StaleReadHarmless(mem, regs, j)
    ensures Delayed(mem, regs, m) == Sequential(mem, regs, m)
  {
    if m > 0 {
      HarmlessReadsAgree(mem, regs, n, m - 1);
      HarmlessReadsAgree(mem, regs, n, Max(0, m - 3));
      assert StaleReadHarmless(mem, regs, m - 1);
    }
  }

  lemma AgreementIsHarmless(mem: Memory, regs: Registers, n: nat, j: nat)
    requires Executable(mem) && j < n
    requires Agree(mem, regs, n)
    ensures StaleReadHarmless(mem, regs, j)
  {
    var inst := Fetched(mem, j);
    assert Delayed(mem, regs, j + 1) == Sequential(mem, regs, j + 1);
    assert Delayed(mem, regs, Max(0, j - 2)) == Sequential(mem, regs, Max(0, j - 2));
    if inst.opcode == ADD {
      assert Delayed(mem, regs, j + 1)[inst.rd] == Compute(inst, Delayed(mem, regs, Max(0, j - 2)));
      assert Sequential(mem, regs, j + 1)[inst.rd] == Compute(inst, Sequential(mem, regs, j));
    }
  }

  /** A register not written by the last two instructions has kept its value. */
  lemma UntouchedRegister(mem: Memory, regs: Registers, j: nat, r: nat)
    requires Executable(mem) && r < NUM_REGISTERS
    requires forall i: nat | i < j <= i + 2 :: Fetched(mem, i).opcode == ADD ==> Fetched(mem, i).rd != r
    ensures Sequential(mem, regs, Max(0, j - 2))[r] == Sequential(mem, regs, j)[r]
  {
    if j >= 1 {
      assert Fetched(mem, j - 1).opcode == ADD ==> Fetched(mem, j - 1).rd != r;
    }
    if j >= 2 {
      assert Fetched(mem, j - 2).opcode == ADD ==> Fetched(mem, j - 2).rd != r;
    }
  }

  /** Without near read-after-write hazards the pipeline implements the ordinary instruction set. */
  lemma HazardFreeIsSequential(mem: Memory, regs: Registers, n: nat)
    requires Executable(mem) && HazardFree(mem, n)
    ensures Delayed(mem, regs, n) == Sequential(mem, regs, n)
  {
    forall j: nat | j < n ensures StaleReadHarmless(mem, regs, j) {
      var inst := Fetched(mem, j);
      if inst.opcode == ADD {
        assert forall i: nat | i < j <= i + 2 :: !ReadsResultOf(inst, Fetched(mem, i));
        UntouchedRegister(mem, regs, j, inst.rs);
        UntouchedRegister(mem, regs, j, inst.rt);
      }
    }
    DelayedIsSequentialIff(mem, regs, n);
  }

  // ---------------------------------------------------------------------------------------------
  // The instruction sets, from the bytes in memory
  // ---------------------------------------------------------------------------------------------

  /** A memory image can be executed if every fourth byte that is zero is followed by three register numbers. */
  lemma ExecutableBytes(mem: Memory)
    ensures Executable(mem) <==> forall w: nat | w <= LAST_WORD && mem[4 * w] == 0 ::
      mem[4 * w + 1] < 16 && mem[4 * w + 2] < 16 && mem[4 * w + 3] < 16
  {
    if Executable(mem) {
      forall w: nat | w <= LAST_WORD && mem[4 * w] == 0
        ensures mem[4 * w + 1] < 16 && mem[4 * w + 2] < 16 && mem[4 * w + 3] < 16
      {
        assert NamesRegisters(WordAt(mem, w));
      }
    }
  }

  /** `after` is `before` with the sum of registers `rs` and `rt` of `operands`, modulo 2^32, in register `rd`. */
  ghost predicate Adds(before: Registers, operands: Registers, rd: nat, rs: nat, rt: nat, after: Registers) {
    && rd < 16 && rs < 16 && rt < 16
    && (var a: int, b: int := operands[rs], operands[rt]; after[rd] == (a + b) % 0x1_0000_0000)
    && forall r | 0 <= r < 16 && r != rd :: after[r] == before[r]
  }

  /** One instruction of the ordinary instruction set: four bytes, opcode zero adds the registers that the third and
      fourth byte name into the one that the second names, any other opcode does nothing. */
  lemma SequentialFromBytes(mem: Memory, regs: Registers, w: nat)
    requires Executable(mem) && w <= LAST_WORD
    ensures var s, s' := Sequential(mem, regs, w), Sequential(mem, regs, w + 1);
      if mem[4 * w] == 0 then Adds(s, s, mem[4 * w + 1], mem[4 * w + 2], mem[4 * w + 3], s') else s' == s
  {
    assert NamesRegisters(WordAt(mem, w)) && Fetched(mem, w) == WordAt(mem, w);
  }

  /** One instruction of the pipeline's instruction set: the same, with the operands of two instructions ago. */
  lemma DelayedFromBytes(mem: Memory, regs: Registers, w: nat)
    requires Executable(mem) && w <= LAST_WORD
    ensures var s, s' := Delayed(mem, regs, w), Delayed(mem, regs, w + 1);
      var operands := Delayed(mem, regs, if w < 2 then 0 else w - 2);
      if mem[4 * w] == 0 then Adds(s, operands, mem[4 * w + 1], mem[4 * w + 2], mem[4 * w + 3], s') else s' == s
  {
    assert NamesRegisters(WordAt(mem, w)) && Fetched(mem, w) == WordAt(mem, w);
  }

  /** The registers of the example program. */
  const FIVE_AND_THREE: Registers := seq(NUM_REGISTERS, i => if i == 2 then 5 else if i == 3 then 3 else 0)

  /** The example program, ADD R1, R2, R3. */
  lemma ExampleProgram(mem: Memory)
    requires Executable(mem) && mem[..4] == [0, 1, 2, 3]
    ensures Delayed(mem, FIVE_AND_THREE, 1) == FIVE_AND_THREE[1 := 8]
  {
    assert mem[0] == mem[..4][0] && mem[1] == mem[..4][1] && mem[2] == mem[..4][2] && mem[3] == mem[..4][3];
    DelayedFromBytes(mem, FIVE_AND_THREE, 0);
  }

  /** The hazard condition is needed: two dependent ADDs in a row, and the second one loses the
      result of the first. */
  lemma HazardChangesTheResult(mem: Memory)
    requires Executable(mem) && mem[..8] == [0, 1, 2, 3, 0, 4, 1, 1]
    ensures Sequential(mem, FIVE_AND_THREE, 2)[4] == 16
    ensures Delayed(mem, FIVE_AND_THREE, 2)[4] == 0
  {
    assert forall i | 0 <= i < 8 :: mem[i] == mem[..8][i];
    SequentialFromBytes(mem, FIVE_AND_THREE, 0);
    SequentialFromBytes(mem, FIVE_AND_THREE, 1);
    DelayedFromBytes(mem, FIVE_AND_THREE, 1);
  }

  /** An ADD, an instruction without effect, and two ADDs of the result of the first. */
  predicate WithGap(mem: Memory) { mem[..16] == [0, 1, 2, 3, 9, 9, 9, 9, 0, 4, 1, 1, 0, 5, 1, 1] }

  lemma GapBytes(mem: Memory)
    requires WithGap(mem)
    ensures mem[0] == 0 && mem[1] == 1 && mem[2] == 2 && mem[3] == 3 && mem[4] == 9
    ensures mem[8] == 0 && mem[9] == 4 && mem[10] == 1 && mem[11] == 1
    ensures mem[12] == 0 && mem[13] == 5 && mem[14] == 1 && mem[15] == 1
  {
    assert forall i | 0 <= i < 16 :: mem[i] == mem[..16][i];
  }

  lemma GapSequential(mem: Memory)
    requires Executable(mem) && WithGap(mem)
    ensures Sequential(mem, FIVE_AND_THREE, 4)[4] == 16 && Sequential(mem, FIVE_AND_THREE, 4)[5] == 16
  {
    GapBytes(mem);
    SequentialFromBytes(mem, FIVE_AND_THREE, 0);
    assert Sequential(mem, FIVE_AND_THREE, 1)[1] == 8;
    SequentialFromBytes(mem, FIVE_AND_THREE, 1);
    assert Sequential(mem, FIVE_AND_THREE, 2)[1] == 8;
    SequentialFromBytes(mem, FIVE_AND_THREE, 2);
    assert Sequential(mem, FIVE_AND_THREE, 3)[1] == 8 && Sequential(mem, FIVE_AND_THREE, 3)[4] == 16;
    SequentialFromBytes(mem, FIVE_AND_THREE, 3);
  }

  lemma GapDelayed(mem: Memory)
    requires Executable(mem) && WithGap(mem)
    ensures Delayed(mem, FIVE_AND_THREE, 4)[4] == 0 && Delayed(mem, FIVE_AND_THREE, 4)[5] == 16
  {
    GapBytes(mem);
    DelayedFromBytes(mem, FIVE_AND_THREE, 0);
    assert Delayed(mem, FIVE_AND_THREE, 1)[1] == 8;
    DelayedFromBytes(mem, FIVE_AND_THREE, 2);
    assert Delayed(mem, FIVE_AND_THREE, 3)[4] == 0;
    DelayedFromBytes(mem, FIVE_AND_THREE, 3);
  }

  /** One instruction in between is not enough, two are. */
  lemma HazardReachesTwoInstructions(mem: Memory)
    requires Executable(mem) && WithGap(mem)
    ensures Sequential(mem, FIVE_AND_THREE, 4)[4] == 16 && Sequential(mem, FIVE_AND_THREE, 4)[5] == 16
    ensures Delayed(mem, FIVE_AND_THREE, 4)[4] == 0 && Delayed(mem, FIVE_AND_THREE, 4)[5] == 16
  {
    GapSequential(mem);
    GapDelayed(mem);
  }

  // ---------------------------------------------------------------------------------------------
  // The processor
  // ---------------------------------------------------------------------------------------------

  /** Four bytes as a 32-bit word, most significant first; the shifts of the fetch stage take them
      out again unchanged. */
  function Pack(b0: int, b1: int, b2: int, b3: int): (w: Word)
    requires 0 <= b0 < 0x100 && 0 <= b1 < 0x100 && 0 <= b2 < 0x100 && 0 <= b3 < 0x100
    ensures w / 0x100_0000 % 0x100 == b0 && w / 0x1_0000 % 0x100 == b1
    ensures w / 0x100 % 0x100 == b2 && w % 0x100 == b3
  {
    var w := b0 * 0x100_0000 + b1 * 0x1_0000 + b2 * 0x100 + b3;
    assert w / 0x100_0000 == b0;
    assert w / 0x1_0000 == b0 * 0x100 + b1;
    assert w / 0x100 == b0 * 0x1_0000 + b1 * 0x100 + b2;
    w
  }

  /** The processor's state as a value. */
  datatype State = State(programCounter: Word, registers: Registers, pipeline: seq<Stage>)

  /** The instruction in the first stage after a fetch: unchanged once memory is used up. */
  function AfterFetch(mem: Memory, pc: Word, stage: Stage): Stage
    requires pc % 4 == 0
  {
    if pc >= MEMORY_SIZE - 3 then stage else Stage(pc, WordAt(mem, pc / 4), stage.result, true)
  }

  function AfterExecute(regs: Registers, stage: Stage): Stage
    requires stage.valid ==> NamesRegisters(stage.inst)
  {
    if stage.valid then stage.(result := Compute(stage.inst, regs)) else stage
  }

  function AfterWriteback(regs: Registers, stage: Stage): Registers
    requires stage.valid ==> NamesRegisters(stage.inst)
  {
    if stage.valid then Commit(stage.inst, stage.result, regs) else regs
  }

  predicate Consistent(s: State) {
    && |s.pipeline| == PIPELINE_STAGES && s.programCounter % 4 == 0
    && forall i | 0 <= i < PIPELINE_STAGES && s.pipeline[i].valid :: NamesRegisters(s.pipeline[i].inst)
  }

  /** One clock cycle on values: retire, shift, fetch, execute with the registers just written. */
  function Cycle(mem: Memory, s: State): State
    requires Consistent(s)
  {
    var regs := AfterWriteback(s.registers, s.pipeline[4]);
    State(if s.programCounter >= MEMORY_SIZE - 3 then s.programCounter else s.programCounter + 4,
          regs,
          [AfterFetch(mem, s.programCounter, s.pipeline[0]), s.pipeline[0],
           AfterExecute(regs, s.pipeline[1]), s.pipeline[2], s.pipeline[3]])
  }

  /** Stage `i` after `k` cycles: empty while the pipeline fills, then instruction `k-1-i`, whose
      result is known from the third stage on. */
  ghost predicate StageAt(stage: Stage, mem: Memory, regs0: Registers, k: nat, i: nat)
    requires Executable(mem)
  {
    && stage.valid == (i < k)
    && (i < k ==>
          var j := k - 1 - i;
          && stage.pc == 4 * Min(j, LAST_WORD)
          && stage.inst == Fetched(mem, j)
          && (i >= 2 ==> stage.result == Compute(stage.inst, Delayed(mem, regs0, Max(0, j - 2)))))
  }

  /** The whole state after `k` cycles from registers `regs0`. */
  ghost predicate AtCycle(s: State, mem: Memory, regs0: Registers, k: nat)
    requires Executable(mem)
  {
    && |s.pipeline| == PIPELINE_STAGES
    && s.programCounter == 4 * Min(k, LAST_WORD + 1)
    && s.registers == Delayed(mem, regs0, Max(0, k - PIPELINE_STAGES))
    && StageAt(s.pipeline[0], mem, regs0, k, 0)
    && StageAt(s.pipeline[1], mem, regs0, k, 1)
    && StageAt(s.pipeline[2], mem, regs0, k, 2)
    && StageAt(s.pipeline[3], mem, regs0, k, 3)
    && StageAt(s.pipeline[4], mem, regs0, k, 4)
  }

  /** Retiring the last stage commits the next instruction of the delayed-read run. */
  lemma RetireAdvances(stage: Stage, mem: Memory, regs0: Registers, k: nat)
    requires Executable(mem) && StageAt(stage, mem, regs0, k, PIPELINE_STAGES - 1)
    ensures stage.valid ==> NamesRegisters(stage.inst)
    ensures AfterWriteback(Delayed(mem, regs0, Max(0, k - PIPELINE_STAGES)), stage)
         == Delayed(mem, regs0, Max(0, k + 1 - PIPELINE_STAGES))
  {
  }

  /** Entering the third stage computes the result from the registers two instructions back. */
  lemma ExecuteAdvances(stage: Stage, mem: Memory, regs0: Registers, k: nat)
    requires Executable(mem) && StageAt(stage, mem, regs0, k, 1)
    ensures stage.valid ==> NamesRegisters(stage.inst)
    ensures StageAt(AfterExecute(Delayed(mem, regs0, Max(0, k + 1 - PIPELINE_STAGES)), stage), mem, regs0, k + 1, 2)
  {
  }

  /** Fetching brings in instruction `k`, or leaves the last one where it is. */
  lemma FetchAdvances(stage: Stage, mem: Memory, regs0: Registers, k: nat, pc: Word)
    requires Executable(mem) && StageAt(stage, mem, regs0, k, 0) && pc == 4 * Min(k, LAST_WORD + 1)
    ensures StageAt(AfterFetch(mem, pc, stage), mem, regs0, k + 1, 0)
  {
  }

  /** The other stages only move on. */
  lemma MoveOn(stage: Stage, mem: Memory, regs0: Registers, k: nat, i: nat)
    requires Executable(mem) && StageAt(stage, mem, regs0, k, i) && i != 1
    ensures stage.valid ==> NamesRegisters(stage.inst)
    ensures StageAt(stage, mem, regs0, k + 1, i + 1)
  {
  }

  lemma AtCycleIsConsistent(s: State, mem: Memory, regs0: Registers, k: nat)
    requires Executable(mem) && AtCycle(s, mem, regs0, k)
    ensures Consistent(s)
  {
    forall i | 0 <= i < PIPELINE_STAGES && s.pipeline[i].valid ensures NamesRegisters(s.pipeline[i].inst) {
      assert StageAt(s.pipeline[i], mem, regs0, k, i);
    }
  }

  /** Every cycle takes the closed form for `k` to the closed form for `k + 1`. */
  lemma CycleAdvances(s: State, mem: Memory, regs0: Registers, k: nat)
    requires Executable(mem) && AtCycle(s, mem, regs0, k)
    ensures Consistent(s) && AtCycle(Cycle(mem, s), mem, regs0, k + 1)
  {
    AtCycleIsConsistent(s, mem, regs0, k);
    RetireAdvances(s.pipeline[4], mem, regs0, k);
    FetchAdvances(s.pipeline[0], mem, regs0, k, s.programCounter);
    MoveOn(s.pipeline[0], mem, regs0, k, 0);
    ExecuteAdvances(s.pipeline[1], mem, regs0, k);
    MoveOn(s.pipeline[2], mem, regs0, k, 2);
    MoveOn(s.pipeline[3], mem, regs0, k, 3);
  }

  class CPU {
    var programCounter: Word
    const registers: array<Word>
    const memory: Memory
    const pipeline: array<Stage>

    ghost predicate Valid()
      reads this, registers, pipeline
    {
      registers.Length == NUM_REGISTERS && pipeline.Length == PIPELINE_STAGES && Consistent(View())
    }

    ghost function View(): State
      requires registers.Length == NUM_REGISTERS
      reads this, registers, pipeline
    {
      State(programCounter, registers[..], pipeline[..])
    }

    /** `initCPU`, with the memory image and the registers that a caller loads afterwards. */
    constructor (image: Memory, regs0: Registers)
      requires Executable(image)
      ensures Valid() && memory == image && AtCycle(View(), image, regs0, 0)
      ensures fresh(registers) && fresh(pipeline)
    {
      programCounter := 0;
      registers := new Word[NUM_REGISTERS](i requires 0 <= i < NUM_REGISTERS => regs0[i]);
      memory := image;
      pipeline := new Stage[PIPELINE_STAGES](_ => Stage(0, Instruction(0, 0, 0, 0), 0, false));
      new;
      assert registers[..] == regs0;
    }

    method FetchStage()
      requires pipeline.Length == PIPELINE_STAGES && programCounter % 4 == 0
      modifies this`programCounter, pipeline
      ensures pipeline[..] == old(pipeline[..])[0 := AfterFetch(memory, old(programCounter), old(pipeline[0]))]
      ensures programCounter
        == if old(programCounter) >= MEMORY_SIZE - 3 then old(programCounter) else old(programCounter) + 4
    {
      if programCounter >= MEMORY_SIZE - 3 { return; }
      var instruction := Pack(memory[programCounter], memory[programCounter + 1], memory[programCounter + 2],
          memory[programCounter + 3]);
      var inst := Instruction(instruction / 0x100_0000 % 0x100, instruction / 0x1_0000 % 0x100,
                              instruction / 0x100 % 0x100, instruction % 0x100);
      pipeline[0] := pipeline[0].(pc := programCounter, inst := inst, valid := true);
      programCounter := programCounter + 4;
    }

    method ExecuteStage()
      requires registers.Length == NUM_REGISTERS && pipeline.Length == PIPELINE_STAGES
      requires pipeline[2].valid ==> NamesRegisters(pipeline[2].inst)
      modifies pipeline
      ensures pipeline[..] == old(pipeline[..])[2 := AfterExecute(registers[..], old(pipeline[2]))]
    {
      if !pipeline[2].valid { return; }
      var inst := pipeline[2].inst;
      var result := 0;
      if inst.opcode == ADD {
        result := Sum(registers[inst.rs], registers[inst.rt]);
      }
      pipeline[2] := pipeline[2].(result := result);
    }

    method WritebackStage()
      requires registers.Length == NUM_REGISTERS && pipeline.Length == PIPELINE_STAGES
      requires pipeline[4].valid ==> NamesRegisters(pipeline[4].inst)
      modifies registers
      ensures registers[..] == AfterWriteback(old(registers[..]), pipeline[4])
    {
      if !pipeline[4].valid { return; }
      var inst := pipeline[4].inst;
      if inst.opcode == ADD {
        registers[inst.rd] := pipeline[4].result;
      }
    }

    method Shift()
      requires pipeline.Length == PIPELINE_STAGES
      modifies pipeline
      ensures pipeline[..] == [old(pipeline[0])] + old(pipeline[..PIPELINE_STAGES - 1])
    {
      var i := PIPELINE_STAGES - 1;
      while i > 0
        invariant 0 <= i < PIPELINE_STAGES
        invariant forall s | 0 <= s <= i :: pipeline[s] == old(pipeline[s])
        invariant forall s | i < s < PIPELINE_STAGES :: pipeline[s] == old(pipeline[s - 1])
      {
        pipeline[i] := pipeline[i - 1];
        i := i - 1;
      }
    }

    method PipelineCycle()
      requires Valid()
      modifies this`programCounter, registers, pipeline
      ensures registers.Length == NUM_REGISTERS && View() == Cycle(memory, old(View()))
    {
      WritebackStage();
      Shift();
      FetchStage();
      ExecuteStage();
    }

    /** Any number of cycles: the registers are those of the delayed-read instruction set, five
        instructions behind the clock, and those of the ordinary one when there is no hazard. */
    method Run(cycles: nat, ghost regs0: Registers)
      requires Valid() && Executable(memory) && AtCycle(View(), memory, regs0, 0)
      modifies this`programCounter, registers, pipeline
      ensures Valid() && AtCycle(View(), memory, regs0, cycles)
      ensures registers[..] == Delayed(memory, regs0, Max(0, cycles - PIPELINE_STAGES))
      ensures HazardFree(memory, Max(0, cycles - PIPELINE_STAGES)) ==>
        registers[..] == Sequential(memory, regs0, Max(0, cycles - PIPELINE_STAGES))
    {
      for i := 0 to cycles
        invariant Valid() && AtCycle(View(), memory, regs0, i)
      {
        CycleAdvances(View(), memory, regs0, i);
        PipelineCycle();
        CycleAdvances(View(), memory, regs0, i + 1);
      }
      if HazardFree(memory, Max(0, cycles - PIPELINE_STAGES)) {
        HazardFreeIsSequential(memory, regs0, Max(0, cycles - PIPELINE_STAGES));
      }
    }
  }
}
