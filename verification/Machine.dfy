/** What a FuelVM run shows a recorder: instructions, registers, receipts. */
module Machine {
  import opened Prelude

  type ContractId = nat

  const ZERO_ID: ContractId := 0

  /** A receipt; the fields only printed into event texts are kept as `info`. */
  datatype Receipt =
    | Call(id: ContractId, to: ContractId)
    | Return(id: ContractId, val: u64)
    | ReturnData(id: ContractId)
    | Log(id: ContractId, info: seq<u64>)
    | LogData(id: ContractId, data: Option<seq<byte>>, info: seq<u64>)
    | Mint(id: ContractId, info: seq<u64>)
    | Burn(id: ContractId, info: seq<u64>)
    | Transfer(id: ContractId, info: seq<u64>)
    | TransferOut(id: ContractId, info: seq<u64>)
    | MessageOut(id: ContractId, info: seq<u64>)
    | Panic(id: ContractId, info: seq<u64>)
    | Revert(id: ContractId, info: seq<u64>)
    | ScriptResult(info: seq<u64>)

  type Reg = r: int | 0 <= r < 64
  type Imm12 = i: int | 0 <= i < 0x1000
  type Imm18 = i: int | 0 <= i < 0x4_0000

  const ZERO: Reg := 0
  const PC: Reg := 3
  /** Registers below this index are reserved by the machine. */
  const FIRST_GENERAL: Reg := 16

  /** Every other opcode is `OtherOp`. */
  datatype Instruction =
    | MOVI(dst: Reg, imm18: Imm18)
    | ADD(dst: Reg, lhs: Reg, rhs: Reg)
    | SUB(dst: Reg, lhs: Reg, rhs: Reg)
    | MUL(dst: Reg, lhs: Reg, rhs: Reg)
    | ADDI(dst: Reg, lhs: Reg, imm12: Imm12)
    | SUBI(dst: Reg, lhs: Reg, imm12: Imm12)
    | MULI(dst: Reg, lhs: Reg, imm12: Imm12)
    | RET
    | RETD
    | JAL(link: Reg, target: Reg, offset: Imm12)
    | SRW(dst: Reg, status: Reg, key: Reg)
    | SWW(key: Reg, status: Reg, value: Reg)
    | OtherOp(opcode: byte)

  type Registers = s: seq<u64> | |s| == 64 witness seq(64, _ => 0)

  /** The state at one single-step breakpoint, before the instruction runs.
      `pc` is relative to the script, `registers[PC]` is absolute. */
  datatype StepState = StepState(
    pc: u64,
    registers: Registers,
    receipts: seq<Receipt>,
    instruction: Option<Instruction>)

  function AbsPc(s: StepState): u64 {
    s.registers[PC]
  }

  function OpcodeIndex(s: StepState): nat {
    s.pc / 4
  }

  // ----- the jumps of the machine, on register contents

  /** `ret` and `retd` end the script. */
  predicate EndsScript(s: StepState) {
    s.instruction == Some(RET) || s.instruction == Some(RETD)
  }

  /** A `jal` that saves no address jumps to four times its offset past what its
      target register holds. */
  predicate JumpsTo(s: StepState, addr: int) {
    match s.instruction
    case Some(JAL(link, target, offset)) =>
      link == 0 && (s.registers[target] + 4 * offset) % 0x1_0000_0000_0000_0000 == addr
    case _ => false
  }

  /** One that saves the address after it is a call. */
  predicate SavesAddress(s: StepState) {
    match s.instruction
    case Some(JAL(link, _, _)) => link != 0
    case _ => false
  }

  /** The address after the instruction; register 3 is the program counter. */
  function NextAddress(s: StepState): u64 {
    (s.registers[3] as int + 4) % 0x1_0000_0000_0000_0000
  }

  /** The receipts present at the last step, `seen` of them before the first. */
  function SeenAtEnd(seen: seq<Receipt>, steps: seq<StepState>): seq<Receipt> {
    if steps == [] then seen else Last(steps).receipts
  }

  /** Each step's receipt list extends the one before it. */
  predicate Growing(seen: seq<Receipt>, steps: seq<StepState>) {
    forall i :: 0 <= i < |steps| ==> SeenAtEnd(seen, steps[..i]) <= steps[i].receipts
  }

  lemma GrowingFront(steps: seq<StepState>)
    requires steps != [] && Growing([], steps)
    ensures Growing([], Front(steps)) && SeenAtEnd([], Front(steps)) <= Last(steps).receipts
  {
    forall i | 0 <= i < |Front(steps)| ensures SeenAtEnd([], Front(steps)[..i]) <= Front(steps)[i].receipts {
      assert Front(steps)[..i] == steps[..i];
    }
  }
}
