/**
 * What each routine of vm.c does to a machine, as functions on values.
 * The class in vm.dfy runs the same routines in place over arrays and is
 * proved to agree with these functions; the lemmas in properties.dfy
 * state what the routines promise in terms of them.
 */
module Semantics {
  import opened Bits
  import opened Dwords
  import opened VmDefs

  datatype Option<T> = None | Some(value: T)

  /**
   * The contents of a `vm_t`: the nine register values (register id at
   * index id - 1), the memory bytes and the stack slots.
   */
  datatype Machine = Machine(regs: seq<dword>, mem: seq<byte>, stack: seq<dword>)

  predicate WellFormed(m: Machine)
  {
    |m.regs| == REGISTER_COUNT && |m.mem| == MEMORY_SIZE && |m.stack| == STACK_SLOTS
  }

  /** The register values held big-endian in the 36-byte register file. */
  function RegisterFile(bytes: seq<byte>): (regs: seq<dword>)
    requires |bytes| == REGISTER_FILE_SIZE
    ensures |regs| == REGISTER_COUNT
  {
    seq(REGISTER_COUNT, i requires 0 <= i < REGISTER_COUNT => Decode(bytes, SlotOf((i + 1) as RegisterId)))
  }

  /** Storing v in a register's slot changes that register's value to v and no other. */
  lemma RegisterFileStore(bytes: seq<byte>, id: RegisterId, v: dword)
    requires |bytes| == REGISTER_FILE_SIZE
    ensures RegisterFile(Store(bytes, SlotOf(id), v)) == RegisterFile(bytes)[id - 1 := v]
  {
    var after := Store(bytes, SlotOf(id), v);
    forall i | 0 <= i < REGISTER_COUNT
      ensures RegisterFile(after)[i] == RegisterFile(bytes)[id - 1 := v][i]
    {
      var other := (i + 1) as RegisterId;
      if other == id {
        DecodeStore(bytes, SlotOf(id), v);
      } else {
        SlotsDisjoint(id, other);
        DecodeStoreElsewhere(bytes, SlotOf(id), v, SlotOf(other));
      }
    }
  }

  function Get(m: Machine, id: RegisterId): dword
    requires WellFormed(m)
  {
    m.regs[id - 1]
  }

  function Set(m: Machine, id: RegisterId, v: dword): (m': Machine)
    requires WellFormed(m)
    ensures WellFormed(m')
  {
    m.(regs := m.regs[id - 1 := v])
  }

  /** `_vm_read_dword(vm->memory + address)`. */
  function Load(m: Machine, address: nat): dword
    requires WellFormed(m) && address + 4 <= MEMORY_SIZE
  {
    Decode(m.mem, address)
  }

  // Validators (`_vm_validate_address`, `_vm_validate_register`).

  /** An address leaves room for a dword below MEMORY_SIZE - 4. */
  predicate AddressValid(address: dword)
  {
    address < MEMORY_SIZE - 4
  }

  /** Only ids above EX are refused; id 0 passes. */
  predicate RegisterValid(id: byte)
  {
    id <= EX
  }

  /**
   * FL after a validator's fault: FL is read into a byte, so its upper 24
   * bits are lost before the fault bit is OR-ed in.
   */
  function RaiseTruncated(m: Machine, bit: dword): (m': Machine)
    requires WellFormed(m)
    ensures WellFormed(m')
  {
    Set(m, FL, Or32(Get(m, FL) % 0x100, bit))
  }

  /** FL after any other fault: the fault bit is OR-ed into FL. */
  function Raise(m: Machine, bit: dword): (m': Machine)
    requires WellFormed(m)
    ensures WellFormed(m')
  {
    Set(m, FL, Or32(Get(m, FL), bit))
  }

  function ValidateAddress(m: Machine, address: dword): (m': Machine)
    requires WellFormed(m)
    ensures WellFormed(m')
  {
    if AddressValid(address) then m else RaiseTruncated(m, EX_INVALID_ADDRESS)
  }

  function ValidateRegister(m: Machine, id: byte): (m': Machine)
    requires WellFormed(m)
    ensures WellFormed(m')
  {
    if RegisterValid(id) then m else RaiseTruncated(m, EX_INVALID_REGISTER)
  }

  // Operand decoders (`_vm_read_*`). Each reads its operands from the
  // bytes after the opcode at ip, validates them and, on success, advances
  // ip past the instruction.

  /** Whether decoding succeeded, the instruction pointer afterwards and the machine afterwards. */
  datatype Decoded = Decoded(ok: bool, ip: dword, m: Machine)

  /** `_vm_read_reg_dword`: register at ip+1, dword at ip+2. */
  function ReadRegDword(m: Machine, ip: dword): (d: Decoded)
    requires WellFormed(m) && ip as int + 6 <= MEMORY_SIZE
    ensures WellFormed(d.m)
  {
    var reg := m.mem[ip + 1];
    var m1 := ValidateRegister(m, reg);
    if RegisterValid(reg) then Decoded(true, ip + 6, m1) else Decoded(false, ip, m1)
  }

  /**
   * `_vm_read_reg_address`: `_vm_read_reg_dword`, then the dword is
   * validated as an address. The +6 advance of the first step stays even
   * when the address is refused.
   */
  function ReadRegAddress(m: Machine, ip: dword): (d: Decoded)
    requires WellFormed(m) && ip as int + 6 <= MEMORY_SIZE
    ensures WellFormed(d.m)
  {
    var first := ReadRegDword(m, ip);
    if !first.ok then first
    else
      var address := Load(m, ip as int + 2);
      Decoded(AddressValid(address), first.ip, ValidateAddress(first.m, address))
  }

  /** `_vm_read_address_reg`: address at ip+1, register at ip+5. */
  function ReadAddressReg(m: Machine, ip: dword): (d: Decoded)
    requires WellFormed(m) && ip as int + 6 <= MEMORY_SIZE
    ensures WellFormed(d.m)
  {
    var address := Load(m, ip as int + 1);
    var reg := m.mem[ip + 5];
    var m1 := ValidateAddress(m, address);
    if !AddressValid(address) then Decoded(false, ip, m1)
    else
      var m2 := ValidateRegister(m1, reg);
      if RegisterValid(reg) then Decoded(true, ip + 6, m2) else Decoded(false, ip, m2)
  }

  /** `_vm_read_reg`: register at ip+1. */
  function ReadReg(m: Machine, ip: dword): (d: Decoded)
    requires WellFormed(m) && ip as int + 2 <= MEMORY_SIZE
    ensures WellFormed(d.m)
  {
    var reg := m.mem[ip + 1];
    var m1 := ValidateRegister(m, reg);
    if RegisterValid(reg) then Decoded(true, ip + 2, m1) else Decoded(false, ip, m1)
  }

  /** `_vm_read_reg_reg`: registers at ip+1 and ip+2, validated in that order. */
  function ReadRegReg(m: Machine, ip: dword): (d: Decoded)
    requires WellFormed(m) && ip as int + 3 <= MEMORY_SIZE
    ensures WellFormed(d.m)
  {
    var reg0 := m.mem[ip + 1];
    var reg1 := m.mem[ip + 2];
    var m1 := ValidateRegister(m, reg0);
    if !RegisterValid(reg0) then Decoded(false, ip, m1)
    else
      var m2 := ValidateRegister(m1, reg1);
      if RegisterValid(reg1) then Decoded(true, ip + 3, m2) else Decoded(false, ip, m2)
  }

  // The stack (`_vm_push_dword_to_stack`, `_vm_pop_dword_from_stack`).
  // SP counts bytes; the dword pushed when SP = s sits in slot s / 4.

  /** The SP values for which vm.c's stack accesses stay inside the stack. */
  predicate StackDefined(m: Machine)
    requires WellFormed(m)
  {
    Get(m, SP) <= STACK_SIZE && Get(m, SP) % 4 == 0
  }

  /** Whether an operation succeeded, and the machine afterwards. */
  datatype Effect = Effect(ok: bool, m: Machine)

  function Push(m: Machine, v: dword): (e: Effect)
    requires WellFormed(m) && StackDefined(m)
    ensures WellFormed(e.m)
  {
    var sp := Get(m, SP);
    if sp == STACK_SIZE then Effect(false, Raise(m, EX_STACK_OVERFLOW))
    else Effect(true, Set(m.(stack := m.stack[sp / 4 := v]), SP, sp + 4))
  }

  /** The popped dword and the machine afterwards. */
  datatype Popped = Popped(value: dword, m: Machine)

  /**
   * None when fewer than 4 bytes are on the stack; the machine is then
   * unchanged and the stack is not read, whatever SP holds.
   */
  function Pop(m: Machine): (r: Option<Popped>)
    requires WellFormed(m) && (Get(m, SP) >= 4 ==> StackDefined(m))
    ensures r.Some? ==> WellFormed(r.value.m)
  {
    var sp := Get(m, SP);
    if sp >= 4 then Some(Popped(m.stack[(sp - 4) / 4], Set(m, SP, sp - 4))) else None
  }

  /**
   * `_vm_read_address_and_jump`: the target at ip+1 is validated, the
   * address of the next instruction (ip+5) is pushed, and ip becomes the
   * target. If either step fails, ip is unchanged; a refused target
   * never reaches the stack.
   */
  function ReadAddressAndJump(m: Machine, ip: dword): (d: Decoded)
    requires WellFormed(m) && ip as int + 5 <= MEMORY_SIZE
    requires AddressValid(Load(m, ip as int + 1)) ==> StackDefined(m)
    ensures WellFormed(d.m)
  {
    var target := Load(m, ip as int + 1);
    var m1 := ValidateAddress(m, target);
    if !AddressValid(target) then Decoded(false, ip, m1)
    else
      var pushed := Push(m1, ip + 5);
      Decoded(pushed.ok, if pushed.ok then target else ip, pushed.m)
  }

  // Compare and arithmetic helpers.

  /** The C expression `(int32_t)(a - b)` on dwords: the wrapped difference read as signed. */
  function SignedDifference(a: dword, b: dword): int
  {
    var d := (a - b) % 0x1_0000_0000;
    if d < 0x8000_0000 then d else d - 0x1_0000_0000
  }

  /**
   * `_vm_compare_dword`: clears FLAG_SMALLER and FLAG_GREATER in FL, then
   * sets FLAG_SMALLER when the signed difference is positive and
   * FLAG_GREATER when it is negative.
   */
  function Compare(m: Machine, a: dword, b: dword): (m': Machine)
    requires WellFormed(m)
    ensures WellFormed(m')
  {
    var cleared := And32(And32(Get(m, FL), Not32(FLAG_SMALLER)), Not32(FLAG_GREATER));
    var result := SignedDifference(a, b);
    var fl :=
      if result > 0 then Or32(cleared, FLAG_SMALLER)
      else if result < 0 then Or32(cleared, FLAG_GREATER)
      else cleared;
    Set(m, FL, fl)
  }

  datatype ArithOp = Sub | Add | Mul | Div

  /** Whether the helper succeeded, the value left in `*dw0`, and the machine afterwards. */
  datatype Calculated = Calculated(ok: bool, value: dword, m: Machine)

  /**
   * `_vm_sub`, `_vm_add`, `_vm_mul`, `_vm_div`: the result is computed
   * exactly; out of the dword range, or a zero divisor, adds the fault bit
   * to FL and leaves `*dw0` as it was.
   */
  function Calculate(m: Machine, op: ArithOp, a: dword, b: dword): (c: Calculated)
    requires WellFormed(m)
    ensures WellFormed(c.m)
  {
    match op
    case Sub =>
      if a - b < 0 then Calculated(false, a, Raise(m, EX_CARRY_OVER)) else Calculated(true, a - b, m)
    case Add =>
      if a + b > 0xFFFF_FFFF then Calculated(false, a, Raise(m, EX_CARRY_OVER)) else Calculated(true, a + b, m)
    case Mul =>
      if a * b > 0xFFFF_FFFF then Calculated(false, a, Raise(m, EX_CARRY_OVER)) else Calculated(true, a * b, m)
    case Div =>
      if b == 0 then Calculated(false, a, Raise(m, EX_DIV_ZERO)) else Calculated(true, a / b, m)
  }

  // Opcode classes and instruction shapes.

  predicate IsMove(op: byte) { MOV_REG_REG <= op <= MOV_REG_DWORD }
  predicate IsIncDec(op: byte) { op == INC || op == DEC }
  predicate IsArith(op: byte) { SUB_REG_REG <= op <= DIV_REG_DWORD }
  predicate IsCompare(op: byte) { op == CMP_REG_ADDR || op == CMP_REG_REG }
  predicate IsJump(op: byte) { JE <= op <= JL }

  /** The opcodes some case of vm_step's switch handles. */
  predicate Handled(op: byte)
  {
    op == HALT || IsMove(op) || IsIncDec(op) || IsArith(op) || op == RET ||
    IsCompare(op) || IsJump(op) || op == CALL
  }

  /** The arithmetic opcodes come in groups of three: register, address, immediate operand. */
  function ArithOpOf(op: byte): ArithOp
    requires IsArith(op)
  {
    if op <= SUB_REG_DWORD then Sub
    else if op <= ADD_REG_DWORD then Add
    else if op <= MUL_REG_DWORD then Mul
    else Div
  }

  /** The operand layout of an instruction; every instruction starts with its opcode byte. */
  datatype Shape = Bare | RegReg | RegAddr | AddrReg | RegImm | OneReg | Target

  function ShapeOf(op: byte): Shape
  {
    if op == MOV_REG_REG || op == CMP_REG_REG then RegReg
    else if op == MOV_REG_ADDR || op == CMP_REG_ADDR then RegAddr
    else if op == MOV_ADDR_REG then AddrReg
    else if op == MOV_REG_DWORD then RegImm
    else if IsIncDec(op) then OneReg
    else if IsArith(op) then
      (if (op - SUB_REG_REG) % 3 == 0 then RegReg else if (op - SUB_REG_REG) % 3 == 1 then RegAddr else RegImm)
    else if IsJump(op) || op == CALL then Target
    else Bare
  }

  /** How many bytes at ip vm_step reads for an instruction of this shape. */
  function Length(shape: Shape): nat
  {
    match shape
    case Bare => 1
    case RegReg => 3
    case RegAddr => 6
    case AddrReg => 6
    case RegImm => 6
    case OneReg => 2
    case Target => 5
  }

  /** `_vm_test_flags`: whether FL has any of the given bits. */
  predicate TestFlags(fl: dword, flags: dword)
  {
    And32(fl, flags) != 0
  }

  /** The jump predicates of vm_step, which read only FL. */
  predicate JumpTaken(op: byte, fl: dword)
    requires IsJump(op)
  {
    var greater := TestFlags(fl, FLAG_GREATER);
    var smaller := TestFlags(fl, FLAG_SMALLER);
    if op == JE then !(greater || smaller)
    else if op == JNE then greater || smaller
    else if op == JGE then !(greater || smaller) || greater
    else if op == JG then greater
    else if op == JLE then !(greater || smaller) || smaller
    else smaller
  }

  // When vm_step is defined in C.

  /**
   * How many bytes at ip vm_step reads: an untaken jump reads only its
   * opcode before adding 5 to ip.
   */
  function BytesRead(m: Machine, ip: dword): (n: nat)
    requires WellFormed(m) && ip < MEMORY_SIZE
    ensures 1 <= n <= Length(ShapeOf(m.mem[ip]))
  {
    var op := m.mem[ip];
    if IsJump(op) && !JumpTaken(op, Get(m, FL)) then 1 else Length(ShapeOf(op))
  }

  /** Whether the bytes vm_step reads at ip lie inside memory. */
  predicate Fits(m: Machine, ip: dword)
    requires WellFormed(m)
  {
    ip < MEMORY_SIZE && ip as int + BytesRead(m, ip) <= MEMORY_SIZE
  }

  /**
   * Whether the instruction at ip decodes successfully and names register
   * 0, which passes validation but whose slot (0 - 1) * 4 lies outside
   * the register file.
   */
  predicate NamesRegisterZero(m: Machine, ip: dword)
    requires WellFormed(m) && Fits(m, ip)
  {
    match ShapeOf(m.mem[ip])
    case RegReg => ReadRegReg(m, ip).ok && (m.mem[ip + 1] == 0 || m.mem[ip + 2] == 0)
    case RegAddr => ReadRegAddress(m, ip).ok && m.mem[ip + 1] == 0
    case AddrReg => ReadAddressReg(m, ip).ok && m.mem[ip + 5] == 0
    case RegImm => ReadRegDword(m, ip).ok && m.mem[ip + 1] == 0
    case OneReg => ReadReg(m, ip).ok && m.mem[ip + 1] == 0
    case _ => false
  }

  /**
   * Whether the instruction at ip reads or writes the stack: RET when SP
   * is at least 4, and CALL or a taken jump whose target is accepted.
   */
  predicate UsesStack(m: Machine, ip: dword)
    requires WellFormed(m) && Fits(m, ip)
  {
    var op := m.mem[ip];
    (op == RET && Get(m, SP) >= 4) ||
    ((op == CALL || (IsJump(op) && JumpTaken(op, Get(m, FL)))) && AddressValid(Load(m, ip as int + 1)))
  }

  /**
   * Whether the instruction at ip can be executed inside the arrays of
   * `vm_t`, with the stack touched only at a well-formed SP.
   */
  predicate Executable(m: Machine, ip: dword)
    requires WellFormed(m)
  {
    Fits(m, ip) && !NamesRegisterZero(m, ip) && (UsesStack(m, ip) ==> StackDefined(m))
  }

  /** Whether the next vm_step lies within the model: EX is set, or the instruction at IP is executable. */
  predicate Defined(m: Machine)
    requires WellFormed(m)
  {
    Get(m, EX) != 0 || Executable(m, Get(m, IP))
  }

  // One step (`vm_step`).

  /** The state a case of vm_step reports, its local ip, and the machine afterwards. */
  datatype Outcome = Outcome(state: VmState, ip: dword, m: Machine)

  /** The MOV cases: copy a register, a memory dword or an immediate. */
  function ExecuteMove(m: Machine, ip: dword): (o: Outcome)
    requires WellFormed(m) && Executable(m, ip) && IsMove(m.mem[ip])
    ensures WellFormed(o.m)
  {
    var op := m.mem[ip];
    if op == MOV_REG_REG then
      var d := ReadRegReg(m, ip);
      if !d.ok then Outcome(Exception, d.ip, d.m)
      else Outcome(Ok, d.ip, Set(d.m, m.mem[ip + 1] as RegisterId, Get(d.m, m.mem[ip + 2] as RegisterId)))
    else if op == MOV_REG_ADDR then
      var d := ReadRegAddress(m, ip);
      if !d.ok then Outcome(Exception, d.ip, d.m)
      else Outcome(Ok, d.ip, Set(d.m, m.mem[ip + 1] as RegisterId, Load(d.m, Load(m, ip as int + 2))))
    else if op == MOV_ADDR_REG then
      var d := ReadAddressReg(m, ip);
      if !d.ok then Outcome(Exception, d.ip, d.m)
      else
        var source := Get(d.m, m.mem[ip + 5] as RegisterId);
        Outcome(Ok, d.ip, d.m.(mem := Store(d.m.mem, Load(m, ip as int + 1), source)))
    else
      var d := ReadRegDword(m, ip);
      if !d.ok then Outcome(Exception, d.ip, d.m)
      else Outcome(Ok, d.ip, Set(d.m, m.mem[ip + 1] as RegisterId, Load(m, ip as int + 2)))
  }

  /** INC and DEC: add or subtract 1 and write the result back to the operand register. */
  function ExecuteIncDec(m: Machine, ip: dword): (o: Outcome)
    requires WellFormed(m) && Executable(m, ip) && IsIncDec(m.mem[ip])
    ensures WellFormed(o.m)
  {
    var d := ReadReg(m, ip);
    if !d.ok then Outcome(Exception, d.ip, d.m)
    else
      var reg := m.mem[ip + 1] as RegisterId;
      var c := Calculate(d.m, if m.mem[ip] == INC then Add else Sub, Get(d.m, reg), 1);
      if c.ok then Outcome(Ok, d.ip, Set(c.m, reg, c.value)) else Outcome(Exception, d.ip, c.m)
  }

  /** SUB, ADD, MUL and DIV: the result goes to R, never to an operand register. */
  function ExecuteArith(m: Machine, ip: dword): (o: Outcome)
    requires WellFormed(m) && Executable(m, ip) && IsArith(m.mem[ip])
    ensures WellFormed(o.m)
  {
    var op := m.mem[ip];
    var shape := ShapeOf(op);
    var d :=
      if shape == RegReg then ReadRegReg(m, ip)
      else if shape == RegAddr then ReadRegAddress(m, ip)
      else ReadRegDword(m, ip);
    if !d.ok then Outcome(Exception, d.ip, d.m)
    else
      var a := Get(d.m, m.mem[ip + 1] as RegisterId);
      var b :=
        if shape == RegReg then Get(d.m, m.mem[ip + 2] as RegisterId)
        else if shape == RegAddr then Load(d.m, Load(m, ip as int + 2))
        else Load(m, ip as int + 2);
      var c := Calculate(d.m, ArithOpOf(op), a, b);
      if c.ok then Outcome(Ok, d.ip, Set(c.m, R, c.value)) else Outcome(Exception, d.ip, c.m)
  }

  /** RET: pop into ip; an empty stack stops the machine. */
  function ExecuteRet(m: Machine, ip: dword): (o: Outcome)
    requires WellFormed(m) && (Get(m, SP) >= 4 ==> StackDefined(m))
    ensures WellFormed(o.m)
  {
    match Pop(m)
    case Some(p) => Outcome(Ok, p.value, p.m)
    case None => Outcome(Stopped, ip, m)
  }

  /** CMP: compare a register with a memory dword or another register. */
  function ExecuteCompare(m: Machine, ip: dword): (o: Outcome)
    requires WellFormed(m) && Executable(m, ip) && IsCompare(m.mem[ip])
    ensures WellFormed(o.m)
  {
    if m.mem[ip] == CMP_REG_ADDR then
      var d := ReadRegAddress(m, ip);
      if !d.ok then Outcome(Exception, d.ip, d.m)
      else Outcome(Ok, d.ip, Compare(d.m, Get(d.m, m.mem[ip + 1] as RegisterId), Load(d.m, Load(m, ip as int + 2))))
    else
      var d := ReadRegReg(m, ip);
      if !d.ok then Outcome(Exception, d.ip, d.m)
      else Outcome(Ok, d.ip, Compare(d.m, Get(d.m, m.mem[ip + 1] as RegisterId), Get(d.m, m.mem[ip + 2] as RegisterId)))
  }

  /** The conditional jumps: a taken jump is a call; an untaken one skips its 5 bytes. */
  function ExecuteJump(m: Machine, ip: dword): (o: Outcome)
    requires WellFormed(m) && Executable(m, ip) && IsJump(m.mem[ip])
    ensures WellFormed(o.m)
  {
    if JumpTaken(m.mem[ip], Get(m, FL)) then
      var d := ReadAddressAndJump(m, ip);
      Outcome(if d.ok then Ok else Exception, d.ip, d.m)
    else
      Outcome(Ok, ip + 5, m)
  }

  /** CALL: push the return address and jump. */
  function ExecuteCall(m: Machine, ip: dword): (o: Outcome)
    requires WellFormed(m) && Executable(m, ip) && m.mem[ip] == CALL
    ensures WellFormed(o.m)
  {
    var d := ReadAddressAndJump(m, ip);
    Outcome(if d.ok then Ok else Exception, d.ip, d.m)
  }

  /** The switch of vm_step. */
  function Execute(m: Machine, ip: dword): (o: Outcome)
    requires WellFormed(m) && Executable(m, ip)
    ensures WellFormed(o.m)
  {
    var op := m.mem[ip];
    if op == HALT then Outcome(Stopped, ip, m)
    else if IsMove(op) then ExecuteMove(m, ip)
    else if IsIncDec(op) then ExecuteIncDec(m, ip)
    else if IsArith(op) then ExecuteArith(m, ip)
    else if op == RET then ExecuteRet(m, ip)
    else if IsCompare(op) then ExecuteCompare(m, ip)
    else if IsJump(op) then ExecuteJump(m, ip)
    else if op == CALL then ExecuteCall(m, ip)
    else Outcome(Exception, ip, Set(m, EX, Or32(Get(m, EX), EX_INVALID_OP_CODE)))
  }

  /** The state vm_step returns and the machine it leaves. */
  datatype Stepped = Stepped(state: VmState, m: Machine)

  /**
   * `vm_step`: nothing happens while EX is non-zero; otherwise the
   * instruction at IP is executed and the case's local ip is written to
   * IP, over anything the instruction wrote there.
   */
  function Step(m: Machine): (s: Stepped)
    requires WellFormed(m) && Defined(m)
    ensures WellFormed(s.m)
  {
    if Get(m, EX) != 0 then Stepped(Exception, m)
    else
      var o := Execute(m, Get(m, IP));
      Stepped(o.state, Set(o.m, IP, o.ip))
  }

  /**
   * The machine after n calls of vm_step by a caller that ignores the
   * states they return; None once a call falls outside `Defined`.
   */
  function Iterate(m: Machine, n: nat): Option<Machine>
    requires WellFormed(m)
    decreases n
  {
    if n == 0 then Some(m)
    else if !Defined(m) then None
    else Iterate(Step(m).m, n - 1)
  }

  /**
   * `vm_write_data` and `vm_write_code`: the bytes replace memory from
   * offset on; everything else stays.
   */
  function WriteSegment(m: Machine, offset: nat, bytes: seq<byte>): (m': Machine)
    requires WellFormed(m) && offset + |bytes| <= MEMORY_SIZE
    ensures WellFormed(m') && m'.regs == m.regs && m'.stack == m.stack
    ensures forall i :: 0 <= i < |bytes| ==> m'.mem[offset + i] == bytes[i]
    ensures forall i :: 0 <= i < MEMORY_SIZE && (i < offset || offset + |bytes| <= i) ==> m'.mem[i] == m.mem[i]
  {
    m.(mem := m.mem[..offset] + bytes + m.mem[offset + |bytes|..])
  }

  /** The machine `vm_reset` leaves: all zero, IP at the first code address. */
  function ResetMachine(): (m: Machine)
    ensures WellFormed(m)
  {
    Machine(
      seq(REGISTER_COUNT, i => if i == IP - 1 then DATA_SEGMENT_SIZE else 0),
      seq(MEMORY_SIZE, i => 0),
      seq(STACK_SLOTS, i => 0))
  }
}
