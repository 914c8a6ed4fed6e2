/**
 * What the routines of vm.c promise, stated over the functions of
 * module Semantics: the fault bits they raise, how far they move the
 * instruction pointer, the stack discipline, the arithmetic and compare
 * results, the jump conditions and what a step does to the machine.
 */
module Properties {
  import opened Bits
  import opened Dwords
  import opened VmDefs
  import opened Semantics

  /** m' differs from m at most in register id. */
  predicate SameExcept(m: Machine, m': Machine, id: RegisterId)
    requires WellFormed(m) && WellFormed(m')
  {
    m'.mem == m.mem && m'.stack == m.stack &&
    forall other: RegisterId :: other != id ==> Get(m', other) == Get(m, other)
  }

  /** m' differs from m at most in registers id0 and id1. */
  predicate SameExcept2(m: Machine, m': Machine, id0: RegisterId, id1: RegisterId)
    requires WellFormed(m) && WellFormed(m')
  {
    m'.mem == m.mem && m'.stack == m.stack &&
    forall other: RegisterId :: other != id0 && other != id1 ==> Get(m', other) == Get(m, other)
  }

  // Exception and flag bits (VM_EX, VM_FLAG).

  /** The seven exception codes are the bits 0 to 6, so they never overlap. */
  lemma ExceptionCodesAreBits(i: nat)
    requires i < |EXCEPTION_CODES|
    ensures EXCEPTION_CODES[i] == Pow2(i)
  {
  }

  /** Raising a fault with `|` sets that fault's bit and keeps every other bit of FL. */
  lemma {:induction false} RaiseKeepsOtherFaults(fl: dword, i: nat, k: nat)
    requires i < |EXCEPTION_CODES|
    ensures Bit(Or32(fl, EXCEPTION_CODES[i]), k) == (k == i || Bit(fl, k))
  {
    ExceptionCodesAreBits(i);
    BitOr32(fl, EXCEPTION_CODES[i], k);
    BitPow2(i, k);
  }

  /** `Raise`: FL gains the fault's bit, keeps all its other bits; nothing else changes. */
  lemma {:induction false} RaiseBits(m: Machine, i: nat, k: nat)
    requires WellFormed(m) && i < |EXCEPTION_CODES|
    ensures SameExcept(m, Raise(m, EXCEPTION_CODES[i]), FL)
    ensures Bit(Get(Raise(m, EXCEPTION_CODES[i]), FL), k) == (k == i || Bit(Get(m, FL), k))
  {
    RaiseKeepsOtherFaults(Get(m, FL), i, k);
  }

  /**
   * `RaiseTruncated`: FL gains the fault's bit and keeps its other bits
   * below 8; bits 8 and above are lost; nothing else changes.
   */
  lemma {:induction false} RaiseTruncatedBits(m: Machine, i: nat, k: nat)
    requires WellFormed(m) && i < 2
    ensures SameExcept(m, RaiseTruncated(m, EXCEPTION_CODES[i]), FL)
    ensures Bit(Get(RaiseTruncated(m, EXCEPTION_CODES[i]), FL), k) ==
      (k == i || (k < 8 && Bit(Get(m, FL), k)))
  {
    ExceptionCodesAreBits(i);
    BitOr32(Get(m, FL) % 0x100, EXCEPTION_CODES[i], k);
    BitTruncate8(Get(m, FL), k);
    BitPow2(i, k);
  }

  // Validators.

  /** `_vm_validate_address` refuses exactly the addresses from MEMORY_SIZE - 4 on. */
  lemma {:induction false} ValidateAddressSpec(m: Machine, address: dword, k: nat)
    requires WellFormed(m)
    ensures AddressValid(address) <==> address < 2556
    ensures AddressValid(address) ==> ValidateAddress(m, address) == m
    ensures !AddressValid(address) ==> SameExcept(m, ValidateAddress(m, address), FL)
    ensures !AddressValid(address) ==>
      Bit(Get(ValidateAddress(m, address), FL), k) == (k == 0 || (k < 8 && Bit(Get(m, FL), k)))
  {
    RaiseTruncatedBits(m, 0, k);
  }

  /** `_vm_validate_register` refuses exactly the ids above EX; id 0 passes. */
  lemma {:induction false} ValidateRegisterSpec(m: Machine, id: byte, k: nat)
    requires WellFormed(m)
    ensures RegisterValid(id) <==> id <= 9
    ensures RegisterValid(0)
    ensures RegisterValid(id) ==> ValidateRegister(m, id) == m
    ensures !RegisterValid(id) ==> SameExcept(m, ValidateRegister(m, id), FL)
    ensures !RegisterValid(id) ==>
      Bit(Get(ValidateRegister(m, id), FL), k) == (k == 1 || (k < 8 && Bit(Get(m, FL), k)))
  {
    RaiseTruncatedBits(m, 1, k);
  }

  // Operand decoders: on success the machine is unchanged and ip moves past
  // the instruction; on failure exactly one validator fault is raised.

  lemma ReadRegRegSpec(m: Machine, ip: dword)
    requires WellFormed(m) && ip as int + 3 <= MEMORY_SIZE
    ensures var d := ReadRegReg(m, ip);
      && (d.ok <==> RegisterValid(m.mem[ip + 1]) && RegisterValid(m.mem[ip + 2]))
      && (d.ok ==> d.ip == ip + 3 && d.m == m)
      && (!RegisterValid(m.mem[ip + 1]) ==> d.ip == ip && d.m == RaiseTruncated(m, EX_INVALID_REGISTER))
      && (RegisterValid(m.mem[ip + 1]) && !RegisterValid(m.mem[ip + 2]) ==>
            d.ip == ip && d.m == RaiseTruncated(m, EX_INVALID_REGISTER))
  {
  }

  lemma ReadRegSpec(m: Machine, ip: dword)
    requires WellFormed(m) && ip as int + 2 <= MEMORY_SIZE
    ensures var d := ReadReg(m, ip);
      && (d.ok <==> RegisterValid(m.mem[ip + 1]))
      && (d.ok ==> d.ip == ip + 2 && d.m == m)
      && (!d.ok ==> d.ip == ip && d.m == RaiseTruncated(m, EX_INVALID_REGISTER))
  {
  }

  lemma ReadRegDwordSpec(m: Machine, ip: dword)
    requires WellFormed(m) && ip as int + 6 <= MEMORY_SIZE
    ensures var d := ReadRegDword(m, ip);
      && (d.ok <==> RegisterValid(m.mem[ip + 1]))
      && (d.ok ==> d.ip == ip + 6 && d.m == m)
      && (!d.ok ==> d.ip == ip && d.m == RaiseTruncated(m, EX_INVALID_REGISTER))
  {
  }

  /**
   * `_vm_read_reg_address`: a refused register leaves ip where it was,
   * but a refused address leaves ip past the instruction.
   */
  lemma ReadRegAddressSpec(m: Machine, ip: dword)
    requires WellFormed(m) && ip as int + 6 <= MEMORY_SIZE
    ensures var d := ReadRegAddress(m, ip);
      && (d.ok <==> RegisterValid(m.mem[ip + 1]) && AddressValid(Load(m, ip as int + 2)))
      && (d.ok ==> d.ip == ip + 6 && d.m == m)
      && (!RegisterValid(m.mem[ip + 1]) ==> d.ip == ip && d.m == RaiseTruncated(m, EX_INVALID_REGISTER))
      && (RegisterValid(m.mem[ip + 1]) && !AddressValid(Load(m, ip as int + 2)) ==>
            d.ip == ip + 6 && d.m == RaiseTruncated(m, EX_INVALID_ADDRESS))
  {
  }

  lemma ReadAddressRegSpec(m: Machine, ip: dword)
    requires WellFormed(m) && ip as int + 6 <= MEMORY_SIZE
    ensures var d := ReadAddressReg(m, ip);
      && (d.ok <==> AddressValid(Load(m, ip as int + 1)) && RegisterValid(m.mem[ip + 5]))
      && (d.ok ==> d.ip == ip + 6 && d.m == m)
      && (!AddressValid(Load(m, ip as int + 1)) ==> d.ip == ip && d.m == RaiseTruncated(m, EX_INVALID_ADDRESS))
      && (AddressValid(Load(m, ip as int + 1)) && !RegisterValid(m.mem[ip + 5]) ==>
            d.ip == ip && d.m == RaiseTruncated(m, EX_INVALID_REGISTER))
  {
  }

  // The stack.

  /** A push fails exactly on a full stack, raising STACK_OVERFLOW in FL and keeping SP. */
  lemma {:induction false} PushSpec(m: Machine, v: dword, k: nat)
    requires WellFormed(m) && StackDefined(m)
    ensures var e := Push(m, v);
      && (e.ok <==> Get(m, SP) < STACK_SIZE)
      && (e.ok ==> StackDefined(e.m) && Get(e.m, SP) == Get(m, SP) + 4 &&
                   e.m.stack[Get(m, SP) / 4] == v && SameExcept(m.(stack := e.m.stack), e.m, SP) &&
                   forall slot :: 0 <= slot < STACK_SLOTS && slot != Get(m, SP) / 4 ==> e.m.stack[slot] == m.stack[slot])
      && (!e.ok ==> SameExcept(m, e.m, FL) &&
                    Bit(Get(e.m, FL), k) == (k == 2 || Bit(Get(m, FL), k)))
  {
    RaiseBits(m, 2, k);
  }

  /** A pop fails exactly when fewer than 4 bytes are on the stack, and then changes nothing. */
  lemma PopSpec(m: Machine)
    requires WellFormed(m) && StackDefined(m)
    ensures Pop(m).None? <==> Get(m, SP) < 4
    ensures Pop(m).Some? ==>
      var p := Pop(m).value;
      StackDefined(p.m) && Get(p.m, SP) == Get(m, SP) - 4 &&
      p.value == m.stack[Get(p.m, SP) / 4] && SameExcept(m, p.m, SP)
  {
  }

  /** A pop right after a successful push returns the pushed value and restores SP. */
  lemma PushThenPop(m: Machine, v: dword)
    requires WellFormed(m) && StackDefined(m) && Get(m, SP) < STACK_SIZE
    ensures Push(m, v).ok
    ensures Pop(Push(m, v).m) == Some(Popped(v, m.(stack := m.stack[Get(m, SP) / 4 := v])))
  {
    var sp := Get(m, SP);
    var pushed := Push(m, v).m;
    assert pushed.regs[SP - 1 := sp] == m.regs;
  }

  /** Two pushes come back in reverse order. */
  lemma {:induction false} PushPushPopPop(m: Machine, a: dword, b: dword)
    requires WellFormed(m) && StackDefined(m) && Get(m, SP) + 8 <= STACK_SIZE
    ensures Push(m, a).ok && Push(Push(m, a).m, b).ok
    ensures var after := Push(Push(m, a).m, b).m;
      && Pop(after).Some? && Pop(after).value.value == b
      && Pop(Pop(after).value.m).Some? && Pop(Pop(after).value.m).value.value == a
      && Get(Pop(Pop(after).value.m).value.m, SP) == Get(m, SP)
  {
    var m1 := Push(m, a).m;
    PushThenPop(m1, b);
    PushThenPop(m, a);
    var sp := Get(m, SP);
    var m1' := m1.(stack := m1.stack[(sp + 4) / 4 := b]);
    assert Pop(m1') == Some(Popped(a, m.(stack := m.stack[sp / 4 := a]).(stack := m1'.stack)));
  }

  // Arithmetic.

  // Arithmetic: `_vm_sub`, `_vm_add`, `_vm_mul` and `_vm_div` succeed
  // exactly when the exact result is a dword (and the divisor is non-zero)
  // and then return it; on failure they return the first operand and raise
  // their fault (`RaiseBits` says which bit of FL that sets).

  lemma SubSpec(m: Machine, a: dword, b: dword)
    requires WellFormed(m)
    ensures var c := Calculate(m, Sub, a, b);
      && (c.ok <==> a >= b)
      && (c.ok ==> c.value + b == a && c.m == m)
      && (!c.ok ==> c.value == a && c.m == Raise(m, EXCEPTION_CODES[3]))
  {
  }

  lemma AddSpec(m: Machine, a: dword, b: dword)
    requires WellFormed(m)
    ensures var c := Calculate(m, Add, a, b);
      && (c.ok <==> a + b < 0x1_0000_0000)
      && (c.ok ==> c.value == a + b && c.m == m)
      && (!c.ok ==> c.value == a && c.m == Raise(m, EXCEPTION_CODES[3]))
  {
  }

  lemma MulSpec(m: Machine, a: dword, b: dword)
    requires WellFormed(m)
    ensures var c := Calculate(m, Mul, a, b);
      && (c.ok <==> a * b < 0x1_0000_0000)
      && (c.ok ==> c.value == a * b && c.m == m)
      && (!c.ok ==> c.value == a && c.m == Raise(m, EXCEPTION_CODES[3]))
  {
  }

  /** Division rounds down: the quotient q satisfies q * b <= a < (q + 1) * b. */
  lemma DivSpec(m: Machine, a: dword, b: dword)
    requires WellFormed(m)
    ensures var c := Calculate(m, Div, a, b);
      && (c.ok <==> b != 0)
      && (c.ok ==> c.value * b <= a < (c.value + 1) * b && c.m == m)
      && (!c.ok ==> c.value == a && c.m == Raise(m, EXCEPTION_CODES[4]))
  {
  }

  /** Boundary cases: 0xFFFFFFFF + 1 and 0 - 1 fault, 7 - 7 is 0, 7 / 0 faults. */
  lemma CarryBoundaries(m: Machine)
    requires WellFormed(m)
    ensures !Calculate(m, Add, 0xFFFF_FFFF, 1).ok
    ensures !Calculate(m, Sub, 0, 1).ok
    ensures Calculate(m, Sub, 7, 7) == Calculated(true, 0, m)
    ensures !Calculate(m, Div, 7, 0).ok
  {
  }

  // Compare and the jump conditions.

  /**
   * `_vm_compare_dword` sets FLAG_SMALLER when the signed 32-bit difference
   * a - b is positive, FLAG_GREATER when it is negative, clears both when
   * it is zero, and keeps every other bit of FL.
   */
  lemma {:induction false} CompareSpec(m: Machine, a: dword, b: dword, k: nat)
    requires WellFormed(m)
    ensures SameExcept(m, Compare(m, a, b), FL)
    ensures Bit(Get(Compare(m, a, b), FL), 0) == (SignedDifference(a, b) > 0)
    ensures Bit(Get(Compare(m, a, b), FL), 1) == (SignedDifference(a, b) < 0)
    ensures k >= 2 ==> Bit(Get(Compare(m, a, b), FL), k) == Bit(Get(m, FL), k)
  {
    var fl := Get(m, FL);
    var first := And32(fl, Not32(FLAG_SMALLER));
    var cleared := And32(first, Not32(FLAG_GREATER));
    forall j: nat | j < 32
      ensures Bit(cleared, j) == (j >= 2 && Bit(fl, j))
    {
      BitAnd32(first, Not32(FLAG_GREATER), j);
      BitAnd32(fl, Not32(FLAG_SMALLER), j);
      BitNot32(FLAG_SMALLER, j);
      BitNot32(FLAG_GREATER, j);
      BitPow2(0, j);
      BitPow2(1, j);
    }
    if k >= 32 {
      BitAbove32(Get(Compare(m, a, b), FL), k);
      BitAbove32(fl, k);
    }
    var j: nat := k;
    BitOr32(cleared, FLAG_SMALLER, j);
    BitOr32(cleared, FLAG_GREATER, j);
    BitOr32(cleared, FLAG_SMALLER, 0);
    BitOr32(cleared, FLAG_GREATER, 0);
    BitOr32(cleared, FLAG_SMALLER, 1);
    BitOr32(cleared, FLAG_GREATER, 1);
    BitPow2(0, j);
    BitPow2(1, j);
    BitPow2(0, 1);
    BitPow2(1, 0);
    BitPow2(0, 0);
    BitPow2(1, 1);
  }

  /** When a - b does not overflow 32 signed bits, the signed difference orders a and b. */
  lemma CompareOrder(a: dword, b: dword)
    requires -0x8000_0000 <= a - b < 0x8000_0000
    ensures SignedDifference(a, b) == a - b
    ensures SignedDifference(a, b) > 0 <==> a > b
    ensures SignedDifference(a, b) < 0 <==> a < b
  {
  }

  /** With a difference of 2^31 or more the order is lost: 0x80000000 compares below 0. */
  lemma CompareWraps()
    ensures SignedDifference(0x8000_0000, 0) < 0
    ensures SignedDifference(0, 0x8000_0000) < 0
  {
  }

  /** `_vm_test_flags` with one flag tests that flag's bit. */
  lemma {:induction false} TestFlagBits(fl: dword)
    ensures TestFlags(fl, FLAG_SMALLER) == Bit(fl, 0)
    ensures TestFlags(fl, FLAG_GREATER) == Bit(fl, 1)
  {
    AndSingleBit(fl, 0);
    AndSingleBit(fl, 1);
  }

  /** The jump conditions of vm_step, as functions of FL's bits 0 (smaller) and 1 (greater). */
  lemma {:induction false} JumpConditions(op: byte, fl: dword)
    requires IsJump(op)
    ensures op == JE ==> (JumpTaken(op, fl) <==> !Bit(fl, 0) && !Bit(fl, 1))
    ensures op == JNE ==> (JumpTaken(op, fl) <==> Bit(fl, 0) || Bit(fl, 1))
    ensures op == JGE ==> (JumpTaken(op, fl) <==> !Bit(fl, 0) || Bit(fl, 1))
    ensures op == JG ==> (JumpTaken(op, fl) <==> Bit(fl, 1))
    ensures op == JLE ==> (JumpTaken(op, fl) <==> !Bit(fl, 1) || Bit(fl, 0))
    ensures op == JL ==> (JumpTaken(op, fl) <==> Bit(fl, 0))
  {
    TestFlagBits(fl);
  }

  /**
   * After CMP a, b (and nothing else touching FL) each jump is taken
   * according to the signed difference a - b; note that JG is taken when
   * a is the smaller, because CMP sets FLAG_GREATER for a negative
   * difference.
   */
  lemma {:induction false} CompareThenJump(m: Machine, a: dword, b: dword, op: byte)
    requires WellFormed(m) && IsJump(op)
    ensures var d := SignedDifference(a, b);
      var taken := JumpTaken(op, Get(Compare(m, a, b), FL));
      && (op == JE ==> (taken <==> d == 0))
      && (op == JNE ==> (taken <==> d != 0))
      && (op == JGE ==> (taken <==> d <= 0))
      && (op == JG ==> (taken <==> d < 0))
      && (op == JLE ==> (taken <==> d >= 0))
      && (op == JL ==> (taken <==> d > 0))
  {
    CompareSpec(m, a, b, 0);
    JumpConditions(op, Get(Compare(m, a, b), FL));
  }

  /** FLAG_SMALLER is the same bit as EX_INVALID_ADDRESS: a refused address makes JL taken. */
  lemma {:induction false} AddressFaultLooksSmaller(m: Machine, address: dword)
    requires WellFormed(m) && !AddressValid(address)
    ensures JumpTaken(JL, Get(ValidateAddress(m, address), FL))
    ensures !JumpTaken(JE, Get(ValidateAddress(m, address), FL))
  {
    ValidateAddressSpec(m, address, 0);
    JumpConditions(JL, Get(ValidateAddress(m, address), FL));
    JumpConditions(JE, Get(ValidateAddress(m, address), FL));
  }

  // One step (`vm_step`).

  /** The opcode at IP. */
  function OpAt(m: Machine): byte
    requires WellFormed(m) && Get(m, IP) < MEMORY_SIZE
  {
    m.mem[Get(m, IP)]
  }

  /** A machine on which vm_step executes an instruction: no pending exception, and defined in C. */
  predicate Running(m: Machine)
  {
    WellFormed(m) && Get(m, EX) == 0 && Executable(m, Get(m, IP))
  }

  /** The moves, INC and DEC, the arithmetic and the compares. */
  predicate IsData(op: byte)
  {
    IsMove(op) || IsIncDec(op) || IsArith(op) || IsCompare(op)
  }

  /**
   * Whether the register operands of the instruction at ip pass
   * validation, and the leading address of MOV_ADDR_REG too; these are
   * the checks made before the decoder advances ip.
   */
  predicate OperandsValid(m: Machine, ip: dword)
    requires WellFormed(m) && Fits(m, ip)
  {
    match ShapeOf(m.mem[ip])
    case RegReg => RegisterValid(m.mem[ip + 1]) && RegisterValid(m.mem[ip + 2])
    case RegAddr => RegisterValid(m.mem[ip + 1])
    case AddrReg => AddressValid(Load(m, ip as int + 1)) && RegisterValid(m.mem[ip + 5])
    case RegImm => RegisterValid(m.mem[ip + 1])
    case OneReg => RegisterValid(m.mem[ip + 1])
    case _ => true
  }

  /** Whether the decoder of the instruction at ip succeeds. */
  predicate Decodes(m: Machine, ip: dword)
    requires WellFormed(m) && Fits(m, ip)
  {
    OperandsValid(m, ip) && (ShapeOf(m.mem[ip]) == RegAddr ==> AddressValid(Load(m, ip as int + 2)))
  }

  /** While EX is non-zero, vm_step reports EXCEPTION and changes nothing. */
  lemma PendingExceptionBlocks(m: Machine)
    requires WellFormed(m) && Get(m, EX) != 0
    ensures Defined(m) && Step(m) == Stepped(Exception, m)
  {
  }

  /** So a pending exception holds the machine still for any number of steps. */
  lemma {:induction false} ExceptionIsSticky(m: Machine, n: nat)
    requires WellFormed(m) && Get(m, EX) != 0
    ensures Iterate(m, n) == Some(m)
    decreases n
  {
    if n > 0 {
      PendingExceptionBlocks(m);
      ExceptionIsSticky(m, n - 1);
    }
  }

  /** HALT reports STOPPED and changes nothing, not even IP. */
  lemma HaltStops(m: Machine)
    requires Running(m) && OpAt(m) == HALT
    ensures Step(m) == Stepped(Stopped, m)
  {
    assert m.regs[IP - 1 := Get(m, IP)] == m.regs;
  }

  /** The opcodes declared in vm.h that vm_step does not handle. */
  lemma UnhandledOpcodes(op: byte)
    ensures !Handled(op) <==> op == MOV_REG_ADDR_IN_REG || AND_REG_REG <= op <= RND || op >= PUSH
  {
  }

  /**
   * An unhandled opcode sets EX to INVALID_OP_CODE, keeps IP and changes
   * nothing else; the machine then stays as it is for every later step.
   */
  lemma {:induction false} InvalidOpcodeFaults(m: Machine, n: nat)
    requires Running(m) && !Handled(OpAt(m))
    ensures Step(m).state == Exception
    ensures Get(Step(m).m, EX) == EX_INVALID_OP_CODE
    ensures Get(Step(m).m, IP) == Get(m, IP)
    ensures SameExcept(m, Step(m).m, EX)
    ensures Iterate(Step(m).m, n) == Some(Step(m).m)
  {
    OrZero(EX_INVALID_OP_CODE);
    ExceptionIsSticky(Step(m).m, n);
  }

  /**
   * A fault of a handled instruction leaves EX clear: the faults of the
   * validators, the stack and the arithmetic go to FL, so vm_step goes on
   * executing at the next call. Only an unhandled opcode sets EX.
   */
  lemma {:induction false} FaultsLeaveExClear(m: Machine)
    requires Running(m) && Step(m).state == Exception
    ensures Get(Step(m).m, EX) != 0 <==> !Handled(OpAt(m))
  {
    var op := OpAt(m);
    var ip := Get(m, IP);
    if !Handled(op) {
      InvalidOpcodeFaults(m, 0);
    } else if IsData(op) {
      DataStepIp(m);
      if Decodes(m, ip) {
        if IsMove(op) {
          MoveStep(m);
        } else if IsIncDec(op) {
          IncDecStep(m);
        } else if IsArith(op) {
          ArithStep(m);
        } else {
          CompareStep(m);
        }
      }
    } else if op == RET {
      RetStep(m);
    } else if op == CALL || (IsJump(op) && JumpTaken(op, Get(m, FL))) {
      TransferStep(m);
    } else {
      JumpNotTakenStep(m);
    }
  }

  /**
   * The fault bit of the first operand check that fails: the decoders
   * check the leading register or address first and stop at a failure.
   */
  function DecodeFault(m: Machine, ip: dword): dword
    requires WellFormed(m) && Fits(m, ip)
  {
    match ShapeOf(m.mem[ip])
    case AddrReg => if AddressValid(Load(m, ip as int + 1)) then EX_INVALID_REGISTER else EX_INVALID_ADDRESS
    case RegAddr => if RegisterValid(m.mem[ip + 1]) then EX_INVALID_ADDRESS else EX_INVALID_REGISTER
    case _ => EX_INVALID_REGISTER
  }

  /**
   * A move, INC/DEC, arithmetic or compare instruction never stops the
   * machine; IP moves past it exactly when its operands pass validation,
   * whatever the outcome, so an instruction's own write to IP is lost. If
   * decoding fails, only FL and IP change, and FL keeps its low byte and
   * gains the fault bit of the check that failed.
   */
  lemma DataStepIp(m: Machine)
    requires Running(m) && IsData(OpAt(m))
    ensures Step(m).state != Stopped
    ensures Get(Step(m).m, IP) ==
      if OperandsValid(m, Get(m, IP)) then Get(m, IP) + Length(ShapeOf(OpAt(m))) else Get(m, IP)
    ensures !Decodes(m, Get(m, IP)) ==>
      && Step(m).state == Exception
      && Get(Step(m).m, FL) == Or32(Get(m, FL) % 0x100, DecodeFault(m, Get(m, IP)))
      && SameExcept2(m, Step(m).m, FL, IP)
  {
  }

  /** The register named at ip + k, once the instruction decoded without naming register 0. */
  function OperandRegister(m: Machine, ip: dword, k: nat): RegisterId
    requires WellFormed(m) && ip as int + k < MEMORY_SIZE && 1 <= m.mem[ip as int + k] <= 9
  {
    m.mem[ip as int + k] as RegisterId
  }

  /** The first operand of a two-operand instruction: the register at ip + 1. */
  function First(m: Machine, ip: dword): dword
    requires Running(m) && ip == Get(m, IP) && ShapeOf(m.mem[ip]) in {RegReg, RegAddr, RegImm} && Decodes(m, ip)
  {
    Get(m, OperandRegister(m, ip, 1))
  }

  /**
   * The second operand: the register at ip + 2, the dword in memory at the
   * address at ip + 2, or the immediate dword at ip + 2.
   */
  function Second(m: Machine, ip: dword): dword
    requires Running(m) && ip == Get(m, IP) && ShapeOf(m.mem[ip]) in {RegReg, RegAddr, RegImm} && Decodes(m, ip)
  {
    match ShapeOf(m.mem[ip])
    case RegReg => Get(m, OperandRegister(m, ip, 2))
    case RegAddr => Load(m, Load(m, ip as int + 2))
    case RegImm => Load(m, ip as int + 2)
    case _ => 0
  }

  /**
   * SUB, ADD, MUL and DIV compute on the first and second operand: on
   * success the result goes to R and only R and IP change; on failure R
   * keeps its value and only FL and IP change.
   */
  lemma ArithStep(m: Machine)
    requires Running(m) && IsArith(OpAt(m)) && Decodes(m, Get(m, IP))
    ensures var ip := Get(m, IP);
      var c := Calculate(m, ArithOpOf(OpAt(m)), First(m, ip), Second(m, ip));
      var s := Step(m);
      && (s.state == Ok <==> c.ok)
      && (c.ok ==> Get(s.m, R) == c.value && SameExcept2(m, s.m, R, IP))
      && (!c.ok ==> s.state == Exception && SameExcept2(m, s.m, FL, IP))
      && (!c.ok ==>
            Get(s.m, FL) == Or32(Get(m, FL), if ArithOpOf(OpAt(m)) == Div then EX_DIV_ZERO else EX_CARRY_OVER))
      && Get(s.m, IP) == ip + Length(ShapeOf(OpAt(m)))
  {
  }

  /**
   * INC and DEC add or subtract 1 in the operand register itself; at the
   * ends of the dword range they fault instead and only FL and IP change.
   */
  lemma IncDecStep(m: Machine)
    requires Running(m) && IsIncDec(OpAt(m)) && Decodes(m, Get(m, IP))
    ensures var ip := Get(m, IP);
      var reg := OperandRegister(m, ip, 1);
      var v := Get(m, reg);
      var s := Step(m);
      && (s.state == Ok <==> if OpAt(m) == INC then v < 0xFFFF_FFFF else v > 0)
      && (s.state == Ok && reg != IP ==>
            Get(s.m, reg) == (if OpAt(m) == INC then v + 1 else v - 1) && SameExcept2(m, s.m, reg, IP))
      && (s.state != Ok ==> s.state == Exception && SameExcept2(m, s.m, FL, IP))
      && (s.state != Ok ==> Get(s.m, FL) == Or32(Get(m, FL), EX_CARRY_OVER))
      && Get(s.m, IP) == ip + 2
  {
  }

  /** The moves copy a dword into a register or into memory; nothing else but IP changes. */
  lemma MoveStep(m: Machine)
    requires Running(m) && IsMove(OpAt(m)) && Decodes(m, Get(m, IP))
    ensures var ip := Get(m, IP);
      var s := Step(m);
      && s.state == Ok
      && Get(s.m, IP) == ip + Length(ShapeOf(OpAt(m)))
      && (OpAt(m) == MOV_REG_REG && OperandRegister(m, ip, 1) != IP ==>
            Get(s.m, OperandRegister(m, ip, 1)) == Get(m, OperandRegister(m, ip, 2)) &&
            SameExcept2(m, s.m, OperandRegister(m, ip, 1), IP))
      && (OpAt(m) == MOV_REG_ADDR && OperandRegister(m, ip, 1) != IP ==>
            Get(s.m, OperandRegister(m, ip, 1)) == Load(m, Load(m, ip as int + 2)) &&
            SameExcept2(m, s.m, OperandRegister(m, ip, 1), IP))
      && (OpAt(m) == MOV_REG_DWORD && OperandRegister(m, ip, 1) != IP ==>
            Get(s.m, OperandRegister(m, ip, 1)) == Load(m, ip as int + 2) &&
            SameExcept2(m, s.m, OperandRegister(m, ip, 1), IP))
      && (OpAt(m) == MOV_ADDR_REG ==>
            s.m.mem == Store(m.mem, Load(m, ip as int + 1), Get(m, OperandRegister(m, ip, 5))) &&
            SameExcept(m.(mem := s.m.mem), s.m, IP))
  {
  }

  /** A move into IP is overwritten by vm_step's own update of IP. */
  lemma MoveToIpIsLost(m: Machine)
    requires Running(m) && OpAt(m) == MOV_REG_DWORD && m.mem[Get(m, IP) + 1] == IP
    ensures Step(m).state == Ok
    ensures Get(Step(m).m, IP) == Get(m, IP) + 6
  {
    DataStepIp(m);
  }

  /** CMP sets FL as `_vm_compare_dword` does for its two operands; only FL and IP change. */
  lemma CompareStep(m: Machine)
    requires Running(m) && IsCompare(OpAt(m)) && Decodes(m, Get(m, IP))
    ensures var ip := Get(m, IP);
      var s := Step(m);
      && s.state == Ok
      && Get(s.m, FL) == Get(Compare(m, First(m, ip), Second(m, ip)), FL)
      && SameExcept2(m, s.m, FL, IP)
      && Get(s.m, IP) == ip + Length(ShapeOf(OpAt(m)))
  {
  }

  /**
   * A jump whose condition fails skips its 5 bytes and changes nothing
   * else. It reads only its opcode, so it runs anywhere in memory, even
   * where its target would not fit.
   */
  lemma JumpNotTakenStep(m: Machine)
    requires WellFormed(m) && Get(m, EX) == 0 && Get(m, IP) < MEMORY_SIZE
    requires IsJump(OpAt(m)) && !JumpTaken(OpAt(m), Get(m, FL))
    ensures Running(m)
    ensures Step(m).state == Ok
    ensures Get(Step(m).m, IP) == Get(m, IP) + 5
    ensures SameExcept(m, Step(m).m, IP)
  {
  }

  /**
   * CALL, and a jump whose condition holds, push the address of the next
   * instruction and continue at the target; a refused target or a full
   * stack leaves IP where it was and changes only FL.
   */
  lemma TransferStep(m: Machine)
    requires Running(m)
    requires OpAt(m) == CALL || (IsJump(OpAt(m)) && JumpTaken(OpAt(m), Get(m, FL)))
    ensures var ip := Get(m, IP);
      var target := Load(m, ip as int + 1);
      var sp := Get(m, SP);
      var s := Step(m);
      && (s.state == Ok <==> AddressValid(target) && sp < STACK_SIZE)
      && (s.state == Ok ==>
            Get(s.m, IP) == target && Get(s.m, SP) == sp + 4 && s.m.stack[sp / 4] == ip + 5 &&
            s.m.stack == m.stack[sp / 4 := ip + 5] && SameExcept2(m.(stack := s.m.stack), s.m, IP, SP))
      && (s.state != Ok ==> s.state == Exception && Get(s.m, IP) == ip && SameExcept(m, s.m, FL))
      && (!AddressValid(target) ==> Get(s.m, FL) == Or32(Get(m, FL) % 0x100, EX_INVALID_ADDRESS))
      && (AddressValid(target) && sp == STACK_SIZE ==> Get(s.m, FL) == Or32(Get(m, FL), EX_STACK_OVERFLOW))
  {
  }

  /** RET pops the return address into IP; on an empty stack it stops the machine, which stays as it was. */
  lemma RetStep(m: Machine)
    requires Running(m) && OpAt(m) == RET
    ensures var sp := Get(m, SP);
      var s := Step(m);
      && (sp < 4 ==> s == Stepped(Stopped, m))
      && (sp >= 4 ==>
            s.state == Ok && Get(s.m, IP) == m.stack[(sp - 4) / 4] && Get(s.m, SP) == sp - 4 &&
            SameExcept2(m, s.m, IP, SP))
  {
    assert m.regs[IP - 1 := Get(m, IP)] == m.regs;
  }

  /**
   * RET with fewer than 4 bytes on the stack stops the machine without
   * reading the stack, so it runs whatever SP holds below 4.
   */
  lemma ShortStackRetStops(m: Machine)
    requires WellFormed(m) && Get(m, EX) == 0 && Get(m, IP) < MEMORY_SIZE && OpAt(m) == RET
    requires Get(m, SP) < 4
    ensures Running(m)
    ensures Step(m) == Stepped(Stopped, m)
  {
    assert m.regs[IP - 1 := Get(m, IP)] == m.regs;
  }

  /**
   * CALL, or a taken jump, to a refused target faults with
   * INVALID_ADDRESS before the stack is reached, so it runs whatever SP
   * holds; nothing but FL changes.
   */
  lemma RefusedTargetFaults(m: Machine)
    requires WellFormed(m) && Get(m, EX) == 0 && Get(m, IP) as int + 5 <= MEMORY_SIZE
    requires OpAt(m) == CALL || (IsJump(OpAt(m)) && JumpTaken(OpAt(m), Get(m, FL)))
    requires !AddressValid(Load(m, Get(m, IP) as int + 1))
    ensures Running(m)
    ensures Step(m) == Stepped(Exception, RaiseTruncated(m, EX_INVALID_ADDRESS))
  {
    var m1 := RaiseTruncated(m, EX_INVALID_ADDRESS);
    assert m1.regs[IP - 1 := Get(m, IP)] == m1.regs;
  }

  /** A CALL to a RET comes back to the instruction after the CALL, with SP restored. */
  lemma {:induction false} CallThenRet(m: Machine)
    requires Running(m) && OpAt(m) == CALL
    requires AddressValid(Load(m, Get(m, IP) as int + 1)) && Get(m, SP) < STACK_SIZE
    requires m.mem[Load(m, Get(m, IP) as int + 1)] == RET
    ensures Step(m).state == Ok && Running(Step(m).m)
    ensures Step(Step(m).m).state == Ok
    ensures Get(Step(Step(m).m).m, IP) == Get(m, IP) + 5
    ensures Get(Step(Step(m).m).m, SP) == Get(m, SP)
  {
    TransferStep(m);
    var m1 := Step(m).m;
    assert OpAt(m1) == RET;
    RetStep(m1);
  }

  /** vm_step never reports VM_STATE_UNDEFINED: its code is OK, EXCEPTION or STOPPED. */
  lemma StepStates(m: Machine)
    requires WellFormed(m) && Defined(m)
    ensures Step(m).state != Undefined
    ensures 0 <= Step(m).state.Code() <= 2
  {
  }

  // vm_reset, vm_write_code and two small programs.

  /** After vm_reset memory holds only HALT, so the first step stops the machine. */
  lemma ResetHalts()
    ensures Running(ResetMachine())
    ensures Step(ResetMachine()) == Stepped(Stopped, ResetMachine())
  {
    assert Running(ResetMachine());
    HaltStops(ResetMachine());
  }

  /** The machine that vm_reset followed by vm_write_code leaves for a program. */
  function Loaded(code: seq<byte>): (m: Machine)
    requires |code| <= CODE_SEGMENT_SIZE
    ensures WellFormed(m) && m.regs == ResetMachine().regs && m.stack == ResetMachine().stack
    ensures forall i :: 0 <= i < |code| ==> m.mem[DATA_SEGMENT_SIZE + i] == code[i]
    ensures forall i :: 0 <= i < MEMORY_SIZE && (i < DATA_SEGMENT_SIZE || DATA_SEGMENT_SIZE + |code| <= i) ==> m.mem[i] == HALT
  {
    WriteSegment(ResetMachine(), DATA_SEGMENT_SIZE, code)
  }

  /** `mov a0, 5; mov a1, 3; add a0, a1; halt`. */
  const ADD_PROGRAM: seq<byte> :=
    [MOV_REG_DWORD, A0, 0, 0, 0, 5, MOV_REG_DWORD, A1, 0, 0, 0, 3, ADD_REG_REG, A0, A1, HALT]

  /** ADD_PROGRAM loaded, with the given A0, A1, R and IP and every other register zero. */
  function AddProgramAt(a0: dword, a1: dword, r: dword, ip: dword): (m: Machine)
    ensures WellFormed(m)
  {
    Loaded(ADD_PROGRAM).(regs := [a0, a1, 0, 0, r, ip, 0, 0, 0])
  }

  lemma AddProgramLoads()
    ensures Loaded(ADD_PROGRAM) == AddProgramAt(0, 0, 0, DATA_SEGMENT_SIZE)
  {
    assert ResetMachine().regs == [0, 0, 0, 0, 0, DATA_SEGMENT_SIZE, 0, 0, 0];
  }

  lemma {:induction false} AddProgramStep1()
    ensures Running(AddProgramAt(0, 0, 0, 512))
    ensures Step(AddProgramAt(0, 0, 0, 512)) == Stepped(Ok, AddProgramAt(5, 0, 0, 518))
  {
    var m := AddProgramAt(0, 0, 0, 512);
    assert m.mem[512] == MOV_REG_DWORD && m.mem[513] == A0;
    assert m.mem[514] == 0 && m.mem[515] == 0 && m.mem[516] == 0 && m.mem[517] == 5;
    assert Load(m, 514) == 5;
    assert Decodes(m, 512) && !NamesRegisterZero(m, 512);
    assert Running(m);
    MoveStep(m);
    assert Step(m).m.regs == AddProgramAt(5, 0, 0, 518).regs;
  }

  lemma {:induction false} AddProgramStep2()
    ensures Running(AddProgramAt(5, 0, 0, 518))
    ensures Step(AddProgramAt(5, 0, 0, 518)) == Stepped(Ok, AddProgramAt(5, 3, 0, 524))
  {
    var m := AddProgramAt(5, 0, 0, 518);
    assert m.mem[518] == MOV_REG_DWORD && m.mem[519] == A1;
    assert m.mem[520] == 0 && m.mem[521] == 0 && m.mem[522] == 0 && m.mem[523] == 3;
    assert Load(m, 520) == 3;
    assert Decodes(m, 518) && !NamesRegisterZero(m, 518);
    assert Running(m);
    MoveStep(m);
    assert Step(m).m.regs == AddProgramAt(5, 3, 0, 524).regs;
  }

  lemma {:induction false} AddProgramStep3()
    ensures Running(AddProgramAt(5, 3, 0, 524))
    ensures Step(AddProgramAt(5, 3, 0, 524)) == Stepped(Ok, AddProgramAt(5, 3, 8, 527))
  {
    var m := AddProgramAt(5, 3, 0, 524);
    assert m.mem[524] == ADD_REG_REG && m.mem[525] == A0 && m.mem[526] == A1;
    assert Decodes(m, 524) && !NamesRegisterZero(m, 524);
    assert Running(m);
    ArithStep(m);
    assert Step(m).m.regs == AddProgramAt(5, 3, 8, 527).regs;
  }

  /** The program leaves 8 in R and its operands in A0 and A1, and then stops at its HALT. */
  lemma {:induction false} AddProgramRuns()
    ensures Iterate(Loaded(ADD_PROGRAM), 3) == Some(AddProgramAt(5, 3, 8, DATA_SEGMENT_SIZE + 15))
    ensures var m := AddProgramAt(5, 3, 8, DATA_SEGMENT_SIZE + 15);
      && Get(m, A0) == 5 && Get(m, A1) == 3 && Get(m, R) == 8
      && Running(m) && Step(m) == Stepped(Stopped, m)
  {
    AddProgramLoads();
    AddProgramStep1();
    AddProgramStep2();
    AddProgramStep3();
    var m := AddProgramAt(5, 3, 8, 527);
    assert m.mem[527] == HALT;
    assert Running(m);
    HaltStops(m);
  }

  /** A program starting with MOV_REG_ADDR_IN_REG, which vm_step does not handle, faults at once and for good. */
  lemma {:induction false} UnhandledProgramFaults(n: nat)
    ensures Running(Loaded([MOV_REG_ADDR_IN_REG]))
    ensures var s := Step(Loaded([MOV_REG_ADDR_IN_REG]));
      && s.state == Exception && Get(s.m, EX) == EX_INVALID_OP_CODE && Get(s.m, IP) == DATA_SEGMENT_SIZE
      && Iterate(s.m, n) == Some(s.m)
  {
    var m := Loaded([MOV_REG_ADDR_IN_REG]);
    assert m.mem[512] == MOV_REG_ADDR_IN_REG;
    assert Running(m);
    InvalidOpcodeFaults(m, n);
  }

  // `_vm_mul` as written computes the product as int64_t, which two
  // dwords can overflow; `Calculate` uses the exact product instead.

  /** The conversion of an integer to int64_t on a two's-complement host. */
  function Int64(x: int): (r: int)
    ensures -0x8000_0000_0000_0000 <= r < 0x8000_0000_0000_0000
    ensures (r - x) % 0x1_0000_0000_0000_0000 == 0
  {
    var w := x % 0x1_0000_0000_0000_0000;
    if w < 0x8000_0000_0000_0000 then w else w - 0x1_0000_0000_0000_0000
  }

  /** `_vm_mul` as written: the carry test reads the int64_t product, the result is the dword product. */
  function MulAsWritten(m: Machine, a: dword, b: dword): (c: Calculated)
    requires WellFormed(m)
    ensures c.ok ==> c.value == (a * b) % 0x1_0000_0000 && c.m == m
    ensures !c.ok ==> c.value == a && c.m == Raise(m, EX_CARRY_OVER)
  {
    if Int64(a * b) > 0xFFFF_FFFF then Calculated(false, a, Raise(m, EX_CARRY_OVER))
    else Calculated(true, (a * b) % 0x1_0000_0000, m)
  }

  /** Below 2^63 the int64_t product is exact, and the code agrees with `Calculate`. */
  lemma MulAsWrittenAgrees(m: Machine, a: dword, b: dword)
    requires WellFormed(m) && a * b < 0x8000_0000_0000_0000
    ensures MulAsWritten(m, a, b) == Calculate(m, Mul, a, b)
  {
    assert 0 <= a * b;
    assert Int64(a * b) == a * b;
  }

  /** 0xFFFFFFFF * 0xFFFFFFFF wraps to a negative int64_t: the code reports 1 and no CARRY_OVER. */
  lemma MulAsWrittenMissesCarry(m: Machine)
    requires WellFormed(m)
    ensures MulAsWritten(m, 0xFFFF_FFFF, 0xFFFF_FFFF) == Calculated(true, 1, m)
    ensures !Calculate(m, Mul, 0xFFFF_FFFF, 0xFFFF_FFFF).ok
  {
    assert 0xFFFF_FFFF * 0xFFFF_FFFF == 0xFFFF_FFFE_0000_0001;
    assert Int64(0xFFFF_FFFE_0000_0001) == 0xFFFF_FFFE_0000_0001 - 0x1_0000_0000_0000_0000;
  }

  // `_vm_push_dword_to_stack` and `_vm_pop_dword_from_stack` add the byte
  // count SP to `vm->stack`, an array of dwords, so as written they address
  // the byte offset 4 * SP; the model uses slot SP / 4, byte offset SP.

  /** The byte offset into `vm->stack` that `vm->stack + sp` addresses as written. */
  function StackOffsetAsWritten(sp: dword): nat
  {
    4 * sp
  }

  /**
   * Of the SP values the push accepts, the intended offset always leaves
   * room for a dword, while the offset as written does so only below 64:
   * the 17th push writes past the end of the stack.
   */
  lemma StackOffsetAsWrittenOverruns(sp: dword)
    requires sp < STACK_SIZE && sp % 4 == 0
    ensures sp + 4 <= STACK_SIZE
    ensures StackOffsetAsWritten(sp) + 4 <= STACK_SIZE <==> sp < 64
  {
  }

  /** Sixteen pushes take SP to 64, which the push accepts, and the next store lands at byte 256 of 256. */
  lemma StackOverrunExample()
    ensures 64 < STACK_SIZE && StackOffsetAsWritten(64) == STACK_SIZE
  {
  }
}
