/**
 * The constants, enumerations and layout of vm.h: segment and stack sizes,
 * register ids, opcodes, flag bits, exception bits and step states.
 */
module VmDefs {
  import opened Bits
  import opened Dwords

  const DATA_SEGMENT_SIZE: nat := 512
  const CODE_SEGMENT_SIZE: nat := 2048
  const STACK_SIZE: nat := 256

  /** `vm_t.memory`: the data segment followed by the code segment. */
  const MEMORY_SIZE: nat := DATA_SEGMENT_SIZE + CODE_SEGMENT_SIZE

  /** `vm_t.registers`: nine 4-byte slots. */
  const REGISTER_COUNT: nat := 9
  const REGISTER_FILE_SIZE: nat := 36

  /** `vm_t.stack`: STACK_SIZE bytes held as dwords. */
  const STACK_SLOTS: nat := STACK_SIZE / 4

  /** The ids of VM_REGISTER. */
  type RegisterId = r: byte | 1 <= r <= 9 witness 1

  const A0: RegisterId := 1
  const A1: RegisterId := 2
  const A2: RegisterId := 3
  const A3: RegisterId := 4
  const R: RegisterId := 5
  const IP: RegisterId := 6
  const SP: RegisterId := 7
  const FL: RegisterId := 8
  const EX: RegisterId := 9

  /** First byte of register `id`'s slot in `vm_t.registers`. */
  function SlotOf(id: RegisterId): (at: nat)
    ensures at + 4 <= REGISTER_FILE_SIZE
  {
    (id - 1) * 4
  }

  /** The nine slots do not overlap. */
  lemma SlotsDisjoint(a: RegisterId, b: RegisterId)
    requires a != b
    ensures SlotOf(a) + 4 <= SlotOf(b) || SlotOf(b) + 4 <= SlotOf(a)
  {
  }

  /** Every byte of the register file belongs to the slot of register i / 4 + 1. */
  lemma SlotsCover(i: nat)
    requires i < REGISTER_FILE_SIZE
    ensures 1 <= i / 4 + 1 <= 9
    ensures SlotOf((i / 4 + 1) as RegisterId) <= i < SlotOf((i / 4 + 1) as RegisterId) + 4
  {
  }

  // VM_OPCODE. The values 5, 20 to 29 and 40 to 43 are declared in vm.h
  // but no case of vm_step handles them.
  const HALT: byte := 0
  const MOV_REG_REG: byte := 1
  const MOV_REG_ADDR: byte := 2
  const MOV_ADDR_REG: byte := 3
  const MOV_REG_DWORD: byte := 4
  const MOV_REG_ADDR_IN_REG: byte := 5
  const INC: byte := 6
  const DEC: byte := 7
  const SUB_REG_REG: byte := 8
  const SUB_REG_ADDR: byte := 9
  const SUB_REG_DWORD: byte := 10
  const ADD_REG_REG: byte := 11
  const ADD_REG_ADDR: byte := 12
  const ADD_REG_DWORD: byte := 13
  const MUL_REG_REG: byte := 14
  const MUL_REG_ADDR: byte := 15
  const MUL_REG_DWORD: byte := 16
  const DIV_REG_REG: byte := 17
  const DIV_REG_ADDR: byte := 18
  const DIV_REG_DWORD: byte := 19
  const AND_REG_REG: byte := 20
  const AND_REG_ADDR: byte := 21
  const AND_REG_DWORD: byte := 22
  const OR_REG_REG: byte := 23
  const OR_REG_ADDR: byte := 24
  const OR_REG_DWORD: byte := 25
  const MOD_REG_REG: byte := 26
  const MOD_REG_ADDR: byte := 27
  const MOD_REG_DWORD: byte := 28
  const RND: byte := 29
  const RET: byte := 30
  const CMP_REG_ADDR: byte := 31
  const CMP_REG_REG: byte := 32
  const JE: byte := 33
  const JNE: byte := 34
  const JGE: byte := 35
  const JG: byte := 36
  const JLE: byte := 37
  const JL: byte := 38
  const CALL: byte := 39
  const PUSH: byte := 40
  const POP: byte := 41
  const MOVS_REG_STACK: byte := 42
  const MOVS_STACK_REG: byte := 43

  // VM_FLAG: the compare result bits of FL.
  const FLAG_SMALLER: dword := 1
  const FLAG_GREATER: dword := 2

  // VM_EX: the fault bits. Only INVALID_OP_CODE is ever OR-ed into EX;
  // vm.c OR-s all the others into FL.
  const EX_INVALID_ADDRESS: dword := 1
  const EX_INVALID_REGISTER: dword := 2
  const EX_STACK_OVERFLOW: dword := 4
  const EX_CARRY_OVER: dword := 8
  const EX_DIV_ZERO: dword := 16
  const EX_INVALID_OP_CODE: dword := 32
  const EX_INVALID_STACK_ADDRESS: dword := 64

  /** The seven VM_EX values, in declaration order. */
  const EXCEPTION_CODES: seq<dword> := [
    EX_INVALID_ADDRESS, EX_INVALID_REGISTER, EX_STACK_OVERFLOW, EX_CARRY_OVER,
    EX_DIV_ZERO, EX_INVALID_OP_CODE, EX_INVALID_STACK_ADDRESS]

  /** VM_STATE: what one call of vm_step reports. */
  datatype VmState = Undefined | Ok | Exception | Stopped
  {
    /** The enumeration value vm.h gives the state. */
    function Code(): int
    {
      match this
      case Undefined => -1
      case Ok => 0
      case Exception => 1
      case Stopped => 2
    }
  }
}
