/**
 What the basic-block machinery knows of an instruction: its place, its size and whether it
 is one of the scalar-program (SOPP) instructions that end a basic block.
 */
module Instructions {

  import opened Arithmetic

  /** Names a wavefront. */
  type UID = string

  type ByteSize = n: int | 0 < n <= 8 witness 4
  type Bits16 = n: int | 0 <= n < 0x1_0000

  /** A decoded instruction. `sopp` is FormatType == SOPP; `simm16` is its immediate field. */
  datatype Inst = Inst(sopp: bool, opcode: nat, byteSize: ByteSize, simm16: Bits16)

  /** A basic block: the PC of its first instruction, relative to the kernel, and its length. */
  datatype BBL = BBL(PC: int, InsNum: int)

  /** s_endpgm */
  predicate IsEnd(i: Inst) {
    i.sopp && i.opcode == 1
  }

  /** s_branch and the six conditional branches */
  predicate IsBranch(i: Inst) {
    i.sopp && (i.opcode == 2 || 4 <= i.opcode <= 9)
  }

  /** s_barrier */
  predicate IsBarrier(i: Inst) {
    i.sopp && i.opcode == 10
  }

  /** The instructions after which a new block begins. */
  predicate IsCut(i: Inst) {
    IsBranch(i) || IsBarrier(i)
  }

  /** Every format counts as one instruction (insts/inst.go). */
  const INST_WIDTH := 1

  /** The number in [-2^15, 2^15) that is congruent to the bits modulo 2^16; there is only one. */
  function AsInt16(bits: Bits16): (r: int)
    ensures -0x8000 <= r < 0x8000 && (r - bits) % 0x1_0000 == 0
  {
    if bits < 0x8000 then bits else bits - 0x1_0000
  }

  function NextPC(pc: int, i: Inst): int {
    pc + i.byteSize
  }

  /** uint64(int64(pc after the instruction) + imm * 4) */
  function Target(pc: int, i: Inst): int {
    (NextPC(pc, i) + AsInt16(i.simm16) * 4) % UINT64
  }

  /**
   A branch goes forward by four times a small immediate, and back by four times what a large one
   lacks to 2^16, counted from the next instruction.
   */
  lemma BranchDistance(pc: int, i: Inst, next: int)
    requires next == pc + i.byteSize && 0 <= next < UINT64
    ensures i.simm16 < 0x8000 && next + 4 * i.simm16 < UINT64 ==> Target(pc, i) == next + 4 * i.simm16
    ensures i.simm16 >= 0x8000 && next >= 4 * (0x1_0000 - i.simm16) ==>
              Target(pc, i) == next - 4 * (0x1_0000 - i.simm16)
    ensures 0 <= Target(pc, i) < UINT64
  {}

  /** uint64 subtraction of PCs */
  function Rel(pc: int, start: int): (r: int)
    ensures 0 <= r < UINT64
    ensures 0 <= pc - start < UINT64 ==> r == pc - start
    ensures start - UINT64 <= pc < start ==> r == pc - start + UINT64
  {
    (pc - start) % UINT64
  }

  /** A fetched instruction. */
  datatype Fetch = Fetch(pc: int, inst: Inst)
}
