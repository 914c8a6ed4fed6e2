/**
 * vm.c as it runs: a `vm_t` whose register file, memory and stack are
 * arrays that the routines update in place. Every method is proved to do
 * exactly what the function of the same name in Semantics describes.
 */
module Interpreter {
  import opened Bits
  import opened Dwords
  import opened VmDefs
  import Semantics

  /** A `vm_t`. */
  class Vm {
    /** Nine big-endian dwords, register id at bytes (id - 1) * 4 to (id - 1) * 4 + 3. */
    var registers: array<byte>
    /** The data segment [0, 512) followed by the code segment [512, 2560). */
    var memory: array<byte>
    /** The dword slots of the stack; SP counts the bytes in use. */
    var stack: array<dword>

    ghost predicate Valid()
      reads this
    {
      registers.Length == REGISTER_FILE_SIZE && memory.Length == MEMORY_SIZE &&
      stack.Length == STACK_SLOTS && registers != memory
    }

    /** The machine these arrays hold. */
    ghost function Abstract(): (m: Semantics.Machine)
      reads this, registers, memory, stack
      requires Valid()
      ensures Semantics.WellFormed(m)
    {
      Semantics.Machine(Semantics.RegisterFile(registers[..]), memory[..], stack[..])
    }

    /** A machine in the state `vm_reset` leaves. */
    constructor ()
      ensures Valid() && fresh(registers) && fresh(memory) && fresh(stack)
      ensures Abstract() == Semantics.ResetMachine()
    {
      registers := new byte[REGISTER_FILE_SIZE];
      memory := new byte[MEMORY_SIZE];
      stack := new dword[STACK_SLOTS];
      new;
      Reset();
    }

    // Register access (`_vm_read_register`, `_vm_write_register`).

    /** `vm_read_register`: the big-endian dword in the register's slot. */
    function ReadRegister(id: RegisterId): (v: dword)
      reads this, registers
      requires Valid()
      ensures v == Semantics.Get(Abstract(), id)
    {
      Decode(registers[..], SlotOf(id))
    }

    /** `_vm_write_register`: stores v big-endian in the register's slot. */
    method SetRegister(id: RegisterId, v: dword)
      requires Valid()
      modifies registers
      ensures Valid()
      ensures registers[..] == Store(old(registers[..]), SlotOf(id), v)
      ensures Abstract() == Semantics.Set(old(Abstract()), id, v)
    {
      var at := SlotOf(id);
      var bytes := Encode(v);
      registers[at] := bytes[0];
      registers[at + 1] := bytes[1];
      registers[at + 2] := bytes[2];
      registers[at + 3] := bytes[3];
      assert registers[..] == Store(old(registers[..]), at, v);
      Semantics.RegisterFileStore(old(registers[..]), id, v);
    }

    // Memory access (`_vm_read_dword`, `_vm_write_dword` on `vm->memory`).

    function LoadDword(address: nat): (v: dword)
      reads this, memory
      requires Valid() && address + 4 <= MEMORY_SIZE
      ensures v == Semantics.Load(Abstract(), address)
    {
      Decode(memory[..], address)
    }

    method StoreDword(address: nat, v: dword)
      requires Valid() && address + 4 <= MEMORY_SIZE
      modifies memory
      ensures Valid()
      ensures Abstract() == old(Abstract()).(mem := Store(old(memory[..]), address, v))
    {
      var bytes := Encode(v);
      memory[address] := bytes[0];
      memory[address + 1] := bytes[1];
      memory[address + 2] := bytes[2];
      memory[address + 3] := bytes[3];
      assert memory[..] == Store(old(memory[..]), address, v);
    }

    // Validators.

    /** `_vm_validate_address`. */
    method ValidateAddress(address: dword) returns (ok: bool)
      requires Valid()
      modifies registers
      ensures Valid()
      ensures ok == Semantics.AddressValid(address)
      ensures Abstract() == Semantics.ValidateAddress(old(Abstract()), address)
    {
      if address >= MEMORY_SIZE - 4 {
        var ex: byte := ReadRegister(FL) % 0x100;
        OrByte(ex, EX_INVALID_ADDRESS);
        ex := Or32(ex, EX_INVALID_ADDRESS);
        SetRegister(FL, ex);
        return false;
      }
      return true;
    }

    /** `_vm_validate_register`. */
    method ValidateRegister(id: byte) returns (ok: bool)
      requires Valid()
      modifies registers
      ensures Valid()
      ensures ok == Semantics.RegisterValid(id)
      ensures Abstract() == Semantics.ValidateRegister(old(Abstract()), id)
    {
      if id > EX {
        var ex: byte := ReadRegister(FL) % 0x100;
        OrByte(ex, EX_INVALID_REGISTER);
        ex := Or32(ex, EX_INVALID_REGISTER);
        SetRegister(FL, ex);
        return false;
      }
      return true;
    }

    // Operand decoders. Each returns the advanced instruction pointer
    // where vm.c updates `*ip` through a pointer.

    /** `_vm_read_reg_dword`. */
    method ReadRegDword(ip: dword) returns (ok: bool, next: dword, reg: byte, dw: dword)
      requires Valid() && ip as int + 6 <= MEMORY_SIZE
      modifies registers
      ensures Valid()
      ensures reg == memory[ip + 1] && dw == Decode(memory[..], ip as int + 2)
      ensures Semantics.ReadRegDword(old(Abstract()), ip) == Semantics.Decoded(ok, next, Abstract())
    {
      reg := memory[ip + 1];
      dw := LoadDword(ip as int + 2);
      next := ip;
      ok := ValidateRegister(reg);
      if ok {
        next := ip + 6;
      }
    }

    /** `_vm_read_reg_address`. */
    method ReadRegAddress(ip: dword) returns (ok: bool, next: dword, reg: byte, address: dword)
      requires Valid() && ip as int + 6 <= MEMORY_SIZE
      modifies registers
      ensures Valid()
      ensures reg == memory[ip + 1] && address == Decode(memory[..], ip as int + 2)
      ensures Semantics.ReadRegAddress(old(Abstract()), ip) == Semantics.Decoded(ok, next, Abstract())
    {
      ok, next, reg, address := ReadRegDword(ip);
      if ok {
        ok := ValidateAddress(address);
      }
    }

    /** `_vm_read_address_reg`. */
    method ReadAddressReg(ip: dword) returns (ok: bool, next: dword, address: dword, reg: byte)
      requires Valid() && ip as int + 6 <= MEMORY_SIZE
      modifies registers
      ensures Valid()
      ensures address == Decode(memory[..], ip as int + 1) && reg == memory[ip + 5]
      ensures Semantics.ReadAddressReg(old(Abstract()), ip) == Semantics.Decoded(ok, next, Abstract())
    {
      address := LoadDword(ip as int + 1);
      reg := memory[ip + 5];
      next := ip;
      ok := ValidateAddress(address);
      if ok {
        ok := ValidateRegister(reg);
        if ok {
          next := ip + 6;
        }
      }
    }

    /** `_vm_read_reg`. */
    method ReadReg(ip: dword) returns (ok: bool, next: dword, reg: byte)
      requires Valid() && ip as int + 2 <= MEMORY_SIZE
      modifies registers
      ensures Valid()
      ensures reg == memory[ip + 1]
      ensures Semantics.ReadReg(old(Abstract()), ip) == Semantics.Decoded(ok, next, Abstract())
    {
      reg := memory[ip + 1];
      next := ip;
      ok := ValidateRegister(reg);
      if ok {
        next := ip + 2;
      }
    }

    /** `_vm_read_reg_reg`. */
    method ReadRegReg(ip: dword) returns (ok: bool, next: dword, reg0: byte, reg1: byte)
      requires Valid() && ip as int + 3 <= MEMORY_SIZE
      modifies registers
      ensures Valid()
      ensures reg0 == memory[ip + 1] && reg1 == memory[ip + 2]
      ensures Semantics.ReadRegReg(old(Abstract()), ip) == Semantics.Decoded(ok, next, Abstract())
    {
      reg0 := memory[ip + 1];
      reg1 := memory[ip + 2];
      next := ip;
      ok := ValidateRegister(reg0);
      if ok {
        ok := ValidateRegister(reg1);
        if ok {
          next := ip + 3;
        }
      }
    }

    // The stack.

    /** `_vm_push_dword_to_stack`. */
    method PushDword(v: dword) returns (ok: bool)
      requires Valid() && Semantics.StackDefined(Abstract())
      modifies registers, stack
      ensures Valid()
      ensures Semantics.Push(old(Abstract()), v) == Semantics.Effect(ok, Abstract())
    {
      var sp := ReadRegister(SP);
      if sp == STACK_SIZE {
        var fl := ReadRegister(FL);
        fl := Or32(fl, EX_STACK_OVERFLOW);
        SetRegister(FL, fl);
        return false;
      }
      stack[sp / 4] := v;
      SetRegister(SP, sp + 4);
      return true;
    }

    /** `_vm_pop_dword_from_stack`; v is meaningful only when ok. */
    method PopDword() returns (ok: bool, v: dword)
      requires Valid() && (Semantics.Get(Abstract(), SP) >= 4 ==> Semantics.StackDefined(Abstract()))
      modifies registers
      ensures Valid()
      ensures ok == Semantics.Pop(old(Abstract())).Some?
      ensures ok ==> Semantics.Pop(old(Abstract())).value == Semantics.Popped(v, Abstract())
      ensures !ok ==> Abstract() == old(Abstract())
    {
      var sp := ReadRegister(SP);
      v := 0;
      if sp >= 4 {
        sp := sp - 4;
        SetRegister(SP, sp);
        v := stack[sp / 4];
        return true, v;
      }
      return false, v;
    }

    /** `_vm_read_address_and_jump`. */
    method ReadAddressAndJump(ip: dword) returns (ok: bool, next: dword)
      requires Valid() && ip as int + 5 <= MEMORY_SIZE
      requires Semantics.AddressValid(Semantics.Load(Abstract(), ip as int + 1)) ==> Semantics.StackDefined(Abstract())
      modifies registers, stack
      ensures Valid()
      ensures Semantics.ReadAddressAndJump(old(Abstract()), ip) == Semantics.Decoded(ok, next, Abstract())
    {
      var target := LoadDword(ip as int + 1);
      next := ip;
      ok := ValidateAddress(target);
      if ok {
        ok := PushDword(ip + 5);
        if ok {
          next := target;
        }
      }
    }

    // Compare and arithmetic helpers.

    /** `_vm_compare_dword`. */
    method CompareDwords(a: dword, b: dword)
      requires Valid()
      modifies registers
      ensures Valid()
      ensures Abstract() == Semantics.Compare(old(Abstract()), a, b)
    {
      var fl := ReadRegister(FL);
      fl := And32(fl, Not32(FLAG_SMALLER));
      fl := And32(fl, Not32(FLAG_GREATER));
      var result := Semantics.SignedDifference(a, b);
      if result > 0 {
        fl := Or32(fl, FLAG_SMALLER);
      } else if result < 0 {
        fl := Or32(fl, FLAG_GREATER);
      }
      SetRegister(FL, fl);
    }

    /** Adds the fault bit to FL (the failure branch of the arithmetic helpers). */
    method RaiseFault(bit: dword)
      requires Valid()
      modifies registers
      ensures Valid()
      ensures Abstract() == Semantics.Raise(old(Abstract()), bit)
    {
      var fl := ReadRegister(FL);
      fl := Or32(fl, bit);
      SetRegister(FL, fl);
    }

    /** `_vm_sub`; r is `*dw0` afterwards. */
    method Sub(a: dword, b: dword) returns (ok: bool, r: dword)
      requires Valid()
      modifies registers
      ensures Valid()
      ensures Semantics.Calculate(old(Abstract()), Semantics.Sub, a, b) == Semantics.Calculated(ok, r, Abstract())
    {
      if a - b < 0 {
        RaiseFault(EX_CARRY_OVER);
        return false, a;
      }
      return true, a - b;
    }

    /** `_vm_add`. */
    method Add(a: dword, b: dword) returns (ok: bool, r: dword)
      requires Valid()
      modifies registers
      ensures Valid()
      ensures Semantics.Calculate(old(Abstract()), Semantics.Add, a, b) == Semantics.Calculated(ok, r, Abstract())
    {
      if a + b > 0xFFFF_FFFF {
        RaiseFault(EX_CARRY_OVER);
        return false, a;
      }
      return true, a + b;
    }

    /** `_vm_mul`, with the exact product in the carry test (`Properties.MulAsWritten` is the int64_t test). */
    method Mul(a: dword, b: dword) returns (ok: bool, r: dword)
      requires Valid()
      modifies registers
      ensures Valid()
      ensures Semantics.Calculate(old(Abstract()), Semantics.Mul, a, b) == Semantics.Calculated(ok, r, Abstract())
    {
      if a * b > 0xFFFF_FFFF {
        RaiseFault(EX_CARRY_OVER);
        return false, a;
      }
      return true, a * b;
    }

    /** `_vm_div`. */
    method Div(a: dword, b: dword) returns (ok: bool, r: dword)
      requires Valid()
      modifies registers
      ensures Valid()
      ensures Semantics.Calculate(old(Abstract()), Semantics.Div, a, b) == Semantics.Calculated(ok, r, Abstract())
    {
      if b == 0 {
        RaiseFault(EX_DIV_ZERO);
        return false, a;
      }
      return true, a / b;
    }

    /** The inner switch of the arithmetic cases of vm_step. */
    method Calculate(op: Semantics.ArithOp, a: dword, b: dword) returns (ok: bool, r: dword)
      requires Valid()
      modifies registers
      ensures Valid()
      ensures Semantics.Calculate(old(Abstract()), op, a, b) == Semantics.Calculated(ok, r, Abstract())
    {
      match op
      case Sub => ok, r := Sub(a, b);
      case Add => ok, r := Add(a, b);
      case Mul => ok, r := Mul(a, b);
      case Div => ok, r := Div(a, b);
    }

    // The cases of vm_step's switch, one method per group of opcodes.

    /** The MOV cases. The C code copies the 4 stored bytes; register and memory are both big-endian, so that is copying the value. */
    method ExecuteMove(ip: dword) returns (state: VmState, next: dword)
      requires Valid() && Semantics.Executable(Abstract(), ip) && Semantics.IsMove(memory[ip])
      modifies registers, memory
      ensures Valid()
      ensures Semantics.ExecuteMove(old(Abstract()), ip) == Semantics.Outcome(state, next, Abstract())
    {
      var op := memory[ip];
      state := Exception;
      if op == MOV_REG_REG {
        var ok, reg0, reg1;
        ok, next, reg0, reg1 := ReadRegReg(ip);
        if ok {
          var v := ReadRegister(reg1 as RegisterId);
          SetRegister(reg0 as RegisterId, v);
          state := Ok;
        }
      } else if op == MOV_REG_ADDR {
        var ok, reg0, address;
        ok, next, reg0, address := ReadRegAddress(ip);
        if ok {
          var v := LoadDword(address);
          SetRegister(reg0 as RegisterId, v);
          state := Ok;
        }
      } else if op == MOV_ADDR_REG {
        var ok, address, reg0;
        ok, next, address, reg0 := ReadAddressReg(ip);
        if ok {
          var v := ReadRegister(reg0 as RegisterId);
          StoreDword(address, v);
          state := Ok;
        }
      } else {
        var ok, reg0, dw0;
        ok, next, reg0, dw0 := ReadRegDword(ip);
        if ok {
          SetRegister(reg0 as RegisterId, dw0);
          state := Ok;
        }
      }
    }

    /** The INC and DEC case. */
    method ExecuteIncDec(ip: dword) returns (state: VmState, next: dword)
      requires Valid() && Semantics.Executable(Abstract(), ip) && Semantics.IsIncDec(memory[ip])
      modifies registers
      ensures Valid()
      ensures Semantics.ExecuteIncDec(old(Abstract()), ip) == Semantics.Outcome(state, next, Abstract())
    {
      var op := memory[ip];
      state := Exception;
      var ok, reg0;
      ok, next, reg0 := ReadReg(ip);
      if ok {
        var dw0 := ReadRegister(reg0 as RegisterId);
        if op == INC {
          ok, dw0 := Add(dw0, 1);
        } else {
          ok, dw0 := Sub(dw0, 1);
        }
        if ok {
          SetRegister(reg0 as RegisterId, dw0);
          state := Ok;
        }
      }
    }

    /** The SUB, ADD, MUL and DIV cases. */
    method ExecuteArith(ip: dword) returns (state: VmState, next: dword)
      requires Valid() && Semantics.Executable(Abstract(), ip) && Semantics.IsArith(memory[ip])
      modifies registers
      ensures Valid()
      ensures Semantics.ExecuteArith(old(Abstract()), ip) == Semantics.Outcome(state, next, Abstract())
    {
      var op := memory[ip];
      var shape := Semantics.ShapeOf(op);
      state := Exception;
      var ok, reg0, dw0, dw1;
      if shape == Semantics.RegReg {
        var reg1;
        ok, next, reg0, reg1 := ReadRegReg(ip);
        if !ok {
          return;
        }
        dw1 := ReadRegister(reg1 as RegisterId);
      } else if shape == Semantics.RegAddr {
        var address;
        ok, next, reg0, address := ReadRegAddress(ip);
        if !ok {
          return;
        }
        dw1 := LoadDword(address);
      } else {
        ok, next, reg0, dw1 := ReadRegDword(ip);
        if !ok {
          return;
        }
      }
      dw0 := ReadRegister(reg0 as RegisterId);
      ok, dw0 := Calculate(Semantics.ArithOpOf(op), dw0, dw1);
      if ok {
        SetRegister(R, dw0);
        state := Ok;
      }
    }

    /** The RET case. */
    method ExecuteRet(ip: dword) returns (state: VmState, next: dword)
      requires Valid() && (Semantics.Get(Abstract(), SP) >= 4 ==> Semantics.StackDefined(Abstract()))
      modifies registers
      ensures Valid()
      ensures Semantics.ExecuteRet(old(Abstract()), ip) == Semantics.Outcome(state, next, Abstract())
    {
      var ok, v := PopDword();
      if ok {
        return Ok, v;
      }
      return Stopped, ip;
    }

    /** The CMP cases. */
    method ExecuteCompare(ip: dword) returns (state: VmState, next: dword)
      requires Valid() && Semantics.Executable(Abstract(), ip) && Semantics.IsCompare(memory[ip])
      modifies registers
      ensures Valid()
      ensures Semantics.ExecuteCompare(old(Abstract()), ip) == Semantics.Outcome(state, next, Abstract())
    {
      state := Exception;
      if memory[ip] == CMP_REG_ADDR {
        var ok, reg0, address;
        ok, next, reg0, address := ReadRegAddress(ip);
        if ok {
          CompareDwords(ReadRegister(reg0 as RegisterId), LoadDword(address));
          state := Ok;
        }
      } else {
        var ok, reg0, reg1;
        ok, next, reg0, reg1 := ReadRegReg(ip);
        if ok {
          CompareDwords(ReadRegister(reg0 as RegisterId), ReadRegister(reg1 as RegisterId));
          state := Ok;
        }
      }
    }

    /** The conditional jump cases. */
    method ExecuteJump(ip: dword) returns (state: VmState, next: dword)
      requires Valid() && Semantics.Executable(Abstract(), ip) && Semantics.IsJump(memory[ip])
      modifies registers, stack
      ensures Valid()
      ensures Semantics.ExecuteJump(old(Abstract()), ip) == Semantics.Outcome(state, next, Abstract())
    {
      var taken := Semantics.JumpTaken(memory[ip], ReadRegister(FL));
      state := Exception;
      next := ip;
      if taken {
        var ok;
        ok, next := ReadAddressAndJump(ip);
        if ok {
          state := Ok;
        }
      } else {
        next := ip + 5;
        state := Ok;
      }
    }

    /** The CALL case. */
    method ExecuteCall(ip: dword) returns (state: VmState, next: dword)
      requires Valid() && Semantics.Executable(Abstract(), ip) && memory[ip] == CALL
      modifies registers, stack
      ensures Valid()
      ensures Semantics.ExecuteCall(old(Abstract()), ip) == Semantics.Outcome(state, next, Abstract())
    {
      var ok;
      ok, next := ReadAddressAndJump(ip);
      state := if ok then Ok else Exception;
    }

    /** `vm_step`: execute the instruction at IP. */
    method Step() returns (state: VmState)
      requires Valid() && Semantics.Defined(Abstract())
      modifies registers, memory, stack
      ensures Valid()
      ensures Semantics.Step(old(Abstract())) == Semantics.Stepped(state, Abstract())
    {
      if ReadRegister(EX) != 0 {
        return Exception;
      }
      var ip := ReadRegister(IP);
      var op := memory[ip];
      state := Exception;
      if op == HALT {
        state := Stopped;
      } else if Semantics.IsMove(op) {
        state, ip := ExecuteMove(ip);
      } else if Semantics.IsIncDec(op) {
        state, ip := ExecuteIncDec(ip);
      } else if Semantics.IsArith(op) {
        state, ip := ExecuteArith(ip);
      } else if op == RET {
        state, ip := ExecuteRet(ip);
      } else if Semantics.IsCompare(op) {
        state, ip := ExecuteCompare(ip);
      } else if Semantics.IsJump(op) {
        state, ip := ExecuteJump(ip);
      } else if op == CALL {
        state, ip := ExecuteCall(ip);
      } else {
        var ex := ReadRegister(EX);
        ex := Or32(ex, EX_INVALID_OP_CODE);
        SetRegister(EX, ex);
      }
      SetRegister(IP, ip);
    }

    // The public interface.

    /** `vm_reset`: zero the whole machine, then point IP at the first code address. */
    method Reset()
      requires Valid()
      modifies registers, memory, stack
      ensures Valid()
      ensures Abstract() == Semantics.ResetMachine()
    {
      var i := 0;
      while i < registers.Length
        invariant 0 <= i <= registers.Length
        invariant forall k :: 0 <= k < i ==> registers[k] == 0
      {
        registers[i] := 0;
        i := i + 1;
      }
      i := 0;
      while i < memory.Length
        invariant 0 <= i <= memory.Length
        invariant forall k :: 0 <= k < i ==> memory[k] == 0
        invariant forall k :: 0 <= k < registers.Length ==> registers[k] == 0
      {
        memory[i] := 0;
        i := i + 1;
      }
      i := 0;
      while i < stack.Length
        invariant 0 <= i <= stack.Length
        invariant forall k :: 0 <= k < i ==> stack[k] == 0
        invariant forall k :: 0 <= k < registers.Length ==> registers[k] == 0
        invariant forall k :: 0 <= k < memory.Length ==> memory[k] == 0
      {
        stack[i] := 0;
        i := i + 1;
      }
      assert registers[..] == seq(REGISTER_FILE_SIZE, k => 0);
      assert memory[..] == seq(MEMORY_SIZE, k => 0);
      assert stack[..] == seq(STACK_SLOTS, k => 0);
      ghost var zeros := Semantics.RegisterFile(registers[..]);
      assert forall k | 0 <= k < REGISTER_COUNT :: zeros[k] == 0;
      SetRegister(IP, DATA_SEGMENT_SIZE);
      assert Abstract().regs == zeros[IP - 1 := DATA_SEGMENT_SIZE];
      assert Abstract().regs == Semantics.ResetMachine().regs;
    }

    /** `_vm_write_memory`: copy the first `size` bytes of `bytes` to memory at `offset`. */
    method WriteMemory(bytes: seq<byte>, size: nat, offset: nat)
      requires Valid() && size <= |bytes| && offset + size <= MEMORY_SIZE
      modifies memory
      ensures Valid()
      ensures memory[..] == old(memory[..offset]) + bytes[..size] + old(memory[offset + size..])
      ensures Abstract() == Semantics.WriteSegment(old(Abstract()), offset, bytes[..size])
    {
      var i := 0;
      while i < size
        invariant 0 <= i <= size
        invariant forall k :: 0 <= k < i ==> memory[offset + k] == bytes[k]
        invariant forall k :: 0 <= k < offset || offset + i <= k < MEMORY_SIZE ==> memory[k] == old(memory[k])
      {
        memory[offset + i] := bytes[i];
        i := i + 1;
      }
      assert memory[..] == old(memory[..offset]) + bytes[..size] + old(memory[offset + size..]);
    }

    /** `vm_write_data`: fill the start of the data segment. */
    method WriteData(data: seq<byte>, size: nat)
      requires Valid() && size <= DATA_SEGMENT_SIZE && size <= |data|
      modifies memory
      ensures Valid()
      ensures memory[..] == data[..size] + old(memory[size..])
      ensures Abstract() == Semantics.WriteSegment(old(Abstract()), 0, data[..size])
    {
      WriteMemory(data, size, 0);
    }

    /** `vm_write_code`: fill the start of the code segment. */
    method WriteCode(code: seq<byte>, size: nat)
      requires Valid() && size <= CODE_SEGMENT_SIZE && size <= |code|
      modifies memory
      ensures Valid()
      ensures memory[..] == old(memory[..DATA_SEGMENT_SIZE]) + code[..size] + old(memory[DATA_SEGMENT_SIZE + size..])
      ensures Abstract() == Semantics.WriteSegment(old(Abstract()), DATA_SEGMENT_SIZE, code[..size])
    {
      WriteMemory(code, size, DATA_SEGMENT_SIZE);
    }

    /** The assertion of `vm_write_register`, as written. */
    static predicate WriteRegisterAccepts(id: RegisterId)
    {
      id >= A0 && id >= EX
    }

    /** The assertion as written admits EX alone: A0 to FL are refused. */
    static lemma WriteRegisterAcceptsOnlyEx(id: RegisterId)
      ensures WriteRegisterAccepts(id) <==> id == EX
      ensures !WriteRegisterAccepts(A0)
    {
    }

    /** `vm_write_register` as written. */
    method WriteRegister(id: RegisterId, value: dword)
      requires Valid() && WriteRegisterAccepts(id)
      modifies registers
      ensures Valid()
      ensures ReadRegister(id) == value
      ensures forall other: RegisterId :: other != id ==> ReadRegister(other) == old(ReadRegister(other))
    {
      SetRegister(id, value);
    }

    /** `vm_write_register` with the assertion it evidently means, `A0 <= id <= EX`. */
    method WriteAnyRegister(id: RegisterId, value: dword)
      requires Valid() && A0 <= id <= EX
      modifies registers
      ensures Valid()
      ensures ReadRegister(id) == value
      ensures forall other: RegisterId :: other != id ==> ReadRegister(other) == old(ReadRegister(other))
    {
      SetRegister(id, value);
    }

    /** `vm_read_dword`: a dword of the data segment. */
    function ReadDword(address: dword): (v: dword)
      reads this, memory
      requires Valid() && address < DATA_SEGMENT_SIZE - 4
      ensures v == Semantics.Load(Abstract(), address)
    {
      LoadDword(address)
    }

    /** `vm_write_dword`: store a dword in the data segment. */
    method WriteDword(address: dword, value: dword)
      requires Valid() && address < DATA_SEGMENT_SIZE - 4
      modifies memory
      ensures Valid()
      ensures ReadDword(address) == value
      ensures forall i :: 0 <= i < MEMORY_SIZE && (i < address || address + 4 <= i) ==> memory[i] == old(memory[i])
    {
      StoreDword(address, value);
      DecodeStore(old(memory[..]), address, value);
    }
  }
}
