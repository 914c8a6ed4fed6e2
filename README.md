# Fonzie virtual machine in Dafny

A model of the core of Fonzie, a small byte-code virtual machine written in
C. The core is `vm.c` and `vm.h`. It covers the following:

- The machine state `vm_t`: nine 32-bit registers (A0–A3, R, IP, SP, FL,
  EX) held big-endian in a 36-byte register file, 2560 bytes of memory
  (data segment then code segment), and a 64-dword stack.
- The byte-order layer that stores every dword most significant byte first
  on either host.
- The operand validators and decoders.
- Push and pop.
- The compare and arithmetic helpers.
- `vm_step`, with all its cases.
- The public routines: reset, segment writers, register and dword access.

The project has six modules:

- `Bits` (bits.dfy): bitwise OR, AND and NOT on naturals, bit by bit.
- `Dwords` (dwords.dfy): the `byte`/`dword` types, the big-endian encoding, the host byte-swap path and 32-bit bitwise operators.
- `VmDefs` (vmdefs.dfy): the constants, register ids, opcodes, flag and exception bits and step states of vm.h.
- `Semantics` (semantics.dfy): every routine of vm.c as a function on a value `Machine`.
- `Interpreter` (vm.dfy): class `Vm`, which keeps the arrays of `vm_t` and updates them in place. Every method is proved to leave exactly the machine and result that the matching `Semantics` function gives.
- `Properties` (properties.dfy): what the routines promise, stated and proved over `Semantics`.

Where the names and comments of vm.h and vm.c suggest otherwise, the model
follows the code:

- **Compare direction.** `_vm_compare_dword` sets SMALLER when the signed difference a - b is positive and GREATER when it is negative. So after `CMP a, b`, JG is taken when a is the smaller (`Properties.CompareThenJump`).
- **Compare width.** The difference is the 32-bit wrapped difference, not a wide one (`Properties.CompareWraps`).
- **Where faults go.** Of the faults, only an unhandled opcode sets EX. (MOV, INC and DEC name EX as a target like any other register and write it.) The validator, stack and arithmetic faults are OR-ed into FL, so they are not sticky: the next `vm_step` executes normally (`Properties.FaultsLeaveExClear`).
- **Validator faults truncate FL.** The validators go through a byte, so bits 8 to 31 of FL are lost (`Properties.RaiseTruncatedBits`).
- **IP after a fault.** A refused address in `_vm_read_reg_address`, and an arithmetic fault, leave IP past the faulting instruction (`Properties.DataStepIp`).
- **FL bits are shared.** The flag bits are the same bits as INVALID_ADDRESS and INVALID_REGISTER, so a refused address makes a following JL taken (`Properties.AddressFaultLooksSmaller`).

## Model

Each `Interpreter.Vm` row also stands for the `Semantics` function of the
same name (`Semantics.Step`, `Semantics.Push`, `Semantics.ReadRegReg`, …). The
method's contract equates its result and new state with that function, so
the two model the same lines.

| member | source | states |
|---|---|---|
| Dwords.DecodeEncode | vm.c:56-83 | reading back the four bytes stored for a dword gives that dword |
| Dwords.EncodeDecode | vm.c:56-83 | storing the dword read from four bytes gives back the same four bytes |
| Dwords.SwapBytesTwice | vm.c:48-53 | `_swap_bytes32` applied twice is the identity |
| Dwords.ReadDwordPortable | vm.c:56-68 | `_vm_read_dword` (native load, swapped on a little-endian host) yields the big-endian value on either host |
| Dwords.WriteDwordPortable | vm.c:71-83 | `_vm_write_dword` (swap, then native store) leaves the big-endian bytes on either host |
| Dwords.DecodeStore | vm.c:71-83 | a dword written at an offset is read back unchanged from there |
| Dwords.DecodeStoreElsewhere | vm.c:71-83 | a dword write leaves every dword that does not overlap it unchanged |
| Dwords.BitTruncate8 | vm.c:98-103 | reading FL into a `byte` keeps bits 0 to 7 and clears the rest |
| Dwords.AndSingleBit | vm.c:92 | `&` with a single-bit mask is non-zero exactly when that bit is set |
| VmDefs.SlotOf | vm.c:88-90 | the slot `(reg - 1) * 4` of every register id 1..9 lies inside the 36-byte register file |
| VmDefs.SlotsDisjoint | vm.c:88-90 | the slots of two different registers do not overlap |
| VmDefs.SlotsCover | vm.h:120-125 | every byte of `registers[36]` belongs to the slot of exactly the register i / 4 + 1 |
| Semantics.RegisterFileStore | vm.c:88-90 | writing a register's slot changes that register's value to the written one and no other register |
| Semantics.WriteSegment | vm.c:86 | the copied bytes land at the offset, and every byte outside them and all registers and stack stay |
| Properties.ExceptionCodesAreBits | vm.h:101-110 | the seven VM_EX values are the bits 0 to 6, pairwise distinct |
| Properties.RaiseKeepsOtherFaults | vm.h:101-110 | OR-ing a fault code into a dword sets that bit and keeps every other bit |
| Properties.RaiseBits | vm.c:218-225 | a push, carry or division fault sets its bit in FL, keeps every other FL bit, and changes nothing else |
| Properties.RaiseTruncatedBits | vm.c:96-128 | a validator fault sets its bit in FL, keeps FL's other bits below 8, clears bits 8 and up, and changes nothing else |
| Properties.ValidateAddressSpec | vm.c:96-110 | an address is refused exactly when it is at least 2556; a refused one sets FL bit 0 (keeping bits 1 to 7) and changes nothing else; an accepted one changes nothing |
| Properties.ValidateRegisterSpec | vm.c:114-128 | a register id is refused exactly when it is above 9, so id 0 passes; a refused one sets FL bit 1 (keeping bits 0 and 2 to 7) and changes nothing else |
| Properties.ReadRegRegSpec | vm.c:194-207 | decoding succeeds exactly when both register bytes pass; success advances ip by 3 and changes nothing; a failure leaves ip and raises one INVALID_REGISTER |
| Properties.ReadRegSpec | vm.c:178-190 | decoding succeeds exactly when the register byte passes; success advances ip by 2; failure leaves ip and raises INVALID_REGISTER |
| Properties.ReadRegDwordSpec | vm.c:132-145 | decoding succeeds exactly when the register byte passes; success advances ip by 6; failure leaves ip and raises INVALID_REGISTER |
| Properties.ReadRegAddressSpec | vm.c:149-157 | succeeds exactly when register and address both pass; a refused register leaves ip, a refused address leaves ip advanced by 6 and raises INVALID_ADDRESS |
| Properties.ReadAddressRegSpec | vm.c:161-174 | succeeds exactly when address and register both pass, checked in that order; only success advances ip by 6 |
| Properties.PushSpec | vm.c:211-235 | a push fails exactly when SP is 256, then sets FL bit 2 and keeps SP and the stack; otherwise it stores the value in slot SP / 4, leaves every other slot, and adds 4 to SP |
| Properties.PopSpec | vm.c:239-261 | a pop fails exactly when SP < 4 and then changes nothing; otherwise SP drops by 4 and the value is the slot at the new SP |
| Properties.PushThenPop | vm.c:211-261 | a pop right after a successful push returns the pushed value and restores every register |
| Properties.PushPushPopPop | vm.c:211-261 | two pushed values pop in reverse order and SP returns to its start |
| Properties.SubSpec | vm.c:332-351 | `_vm_sub` succeeds exactly when a >= b, with the difference; otherwise it returns a and raises CARRY_OVER |
| Properties.AddSpec | vm.c:309-328 | `_vm_add` succeeds exactly when a + b fits in 32 bits, with the sum; otherwise it returns a and raises CARRY_OVER |
| Properties.MulSpec | vm.c:355-374 | `_vm_mul` succeeds exactly when a * b fits in 32 bits, with the product; otherwise it returns a and raises CARRY_OVER |
| Properties.DivSpec | vm.c:378-394 | `_vm_div` succeeds exactly when b is non-zero, with the quotient rounded down (q * b <= a < (q + 1) * b); otherwise it returns a and raises DIV_ZERO |
| Properties.CarryBoundaries | vm.c:309-394 | 0xFFFFFFFF + 1 and 0 - 1 fault, 7 - 7 gives 0, 7 / 0 faults |
| Properties.CompareSpec | vm.c:284-305 | after a compare, FL bit 0 is set exactly when the signed 32-bit difference is positive, bit 1 exactly when it is negative, all other FL bits and registers are kept |
| Properties.CompareOrder | vm.c:284-305 | when a - b fits in 32 signed bits the signed difference is a - b, so its sign orders a and b |
| Properties.CompareWraps | vm.c:295 | 0x80000000 compared with 0, and 0 with 0x80000000, both give a negative difference |
| Properties.TestFlagBits | vm.c:92 | testing FLAG_SMALLER and FLAG_GREATER tests FL bits 0 and 1 |
| Properties.JumpConditions | vm.c:731-756 | each conditional jump is taken as a function of FL bits 0 and 1 only, e.g. JGE when bit 0 is clear or bit 1 is set |
| Properties.CompareThenJump | vm.c:284-305 | after CMP a, b: JE iff the difference is 0, JNE iff not, JG iff negative, JGE iff not positive, JL iff positive, JLE iff not negative |
| Properties.AddressFaultLooksSmaller | vm.c:96-110 | a refused address sets the bit JL tests, so JL is then taken and JE is not |
| Properties.PendingExceptionBlocks | vm.c:535-539 | while EX is non-zero a step reports EXCEPTION and changes nothing |
| Properties.ExceptionIsSticky | vm.c:535-539 | while EX is non-zero any number of steps leaves the machine unchanged |
| Properties.HaltStops | vm.c:548-550 | HALT reports STOPPED and leaves the machine, IP included, unchanged |
| Properties.UnhandledOpcodes | vm.c:546-781 | the opcodes no case handles are exactly 5, 20 to 29, and 40 and above |
| Properties.InvalidOpcodeFaults | vm.c:776-780 | an unhandled opcode reports EXCEPTION, sets EX to 32, keeps IP and everything else, and every later step leaves the machine unchanged |
| Properties.FaultsLeaveExClear | vm.c:546-781 | when a step reports EXCEPTION, EX is non-zero exactly when the opcode was unhandled |
| Properties.DataStepIp | vm.c:552-723 | moves, INC/DEC, arithmetic and compares never stop; IP ends past the instruction exactly when its register operands (and MOV_ADDR_REG's address) pass, else at it; failed decoding changes only FL and IP, keeping FL's low byte and adding the bit of the first check that fails (INVALID_REGISTER, or INVALID_ADDRESS for the address) |
| Properties.ArithStep | vm.c:598-703 | an arithmetic instruction reports OK exactly when the helper succeeds on its two operands; then R holds the result and only R and IP change; else only FL and IP change and FL gains CARRY_OVER, or DIV_ZERO for a division |
| Properties.IncDecStep | vm.c:584-596 | INC succeeds exactly below 0xFFFFFFFF and DEC exactly above 0, writing the value plus or minus 1 back to the operand register; a fault changes only FL and IP and adds CARRY_OVER to FL |
| Properties.MoveStep | vm.c:552-582 | a decoded move reports OK and copies the source register, memory dword or immediate into the target register, or the register into memory, changing nothing else but IP |
| Properties.MoveToIpIsLost | vm.c:576-582 | a MOV of an immediate into IP leaves IP just past the MOV |
| Properties.CompareStep | vm.c:709-723 | a decoded CMP reports OK, sets FL as the compare of its two operands does, and changes only FL and IP |
| Properties.JumpNotTakenStep | vm.c:758-766 | a jump whose condition fails reads only its opcode, so it runs at any IP inside memory; it reports OK, adds 5 to IP and changes nothing else |
| Properties.TransferStep | vm.c:758-774 | CALL and a taken jump succeed exactly when the target is below 2556 and SP below 256; then IP is the target, ip + 5 is pushed, and only IP, SP and that slot change; else IP stays and only FL changes: a refused target adds INVALID_ADDRESS to FL's low byte, a full stack adds STACK_OVERFLOW |
| Properties.RetStep | vm.c:705-707 | RET with SP < 4 reports STOPPED and changes nothing; otherwise IP becomes the popped dword and SP drops by 4 |
| Properties.ShortStackRetStops | vm.c:705-707 | RET with SP below 4, a multiple of 4 or not, runs, reports STOPPED and changes nothing, without touching the stack |
| Properties.RefusedTargetFaults | vm.c:265-280 | CALL or a taken jump to a refused target runs whatever SP holds, reports EXCEPTION, and only adds INVALID_ADDRESS to FL's low byte |
| Properties.StepStates | vm.h:112-118 | a step reports OK, EXCEPTION or STOPPED, codes 0 to 2, never VM_STATE_UNDEFINED |
| Properties.CallThenRet | vm.c:705-774 | a CALL whose target is RET returns, after two OK steps, to the instruction after the CALL with SP restored |
| Properties.ResetHalts | vm.c:399-403 | after reset the machine runs and its first step stops it unchanged |
| Properties.Loaded | vm.c:399-441 | reset followed by writing a program holds the program from 512 on, HALT everywhere else, and reset registers and stack |
| Properties.AddProgramRuns | vm.c:523-787 | `mov a0, 5; mov a1, 3; add a0, a1; halt` runs three OK steps to R = 8, A0 = 5, A1 = 3 and then stops |
| Properties.UnhandledProgramFaults | vm.c:776-780 | a program starting with opcode 5 faults at once with EX = 32 and IP at 512, and stays so |
| Properties.MulAsWrittenAgrees | vm.c:355-374 | when the product is below 2^63 the int64_t carry test agrees with the exact one |
| Properties.MulAsWrittenMissesCarry | vm.c:355-374 | 0xFFFFFFFF * 0xFFFFFFFF passes the int64_t carry test and returns 1, where the exact test faults |
| Properties.StackOffsetAsWrittenOverruns | vm.c:211-261 | of the SP values a push accepts, the byte offset SP always leaves room for a dword; the offset 4 * SP as written does so only below 64 |
| Properties.StackOverrunExample | vm.c:218-232 | SP = 64 passes the full-stack test, but the store as written lands at byte 256 of the 256-byte stack |
| Interpreter.Vm.constructor | vm.c:399-403 | a new machine is in the reset state |
| Interpreter.Vm.ReadRegister | vm.c:443-447 | reads the big-endian dword in a register's slot: the register's value |
| Interpreter.Vm.SetRegister | vm.c:88 | writes four bytes in place; afterwards that register holds the value and no other register changes |
| Interpreter.Vm.LoadDword | vm.c:56-68 | reads the big-endian dword at an address |
| Interpreter.Vm.StoreDword | vm.c:71-83 | stores four bytes in place; the machine's memory is the stored image |
| Interpreter.Vm.ValidateAddress | vm.c:96-110 | in place, returns and does what `Properties.ValidateAddressSpec` describes |
| Interpreter.Vm.ValidateRegister | vm.c:114-128 | in place, returns and does what `Properties.ValidateRegisterSpec` describes |
| Interpreter.Vm.ReadRegDword | vm.c:132-145 | returns the operand bytes, the decoding result and next ip of `Properties.ReadRegDwordSpec` |
| Interpreter.Vm.ReadRegAddress | vm.c:149-157 | returns the operand bytes, the decoding result and next ip of `Properties.ReadRegAddressSpec` |
| Interpreter.Vm.ReadAddressReg | vm.c:161-174 | returns the operand bytes, the decoding result and next ip of `Properties.ReadAddressRegSpec` |
| Interpreter.Vm.ReadReg | vm.c:178-190 | returns the operand byte, the decoding result and next ip of `Properties.ReadRegSpec` |
| Interpreter.Vm.ReadRegReg | vm.c:194-207 | returns the operand bytes, the decoding result and next ip of `Properties.ReadRegRegSpec` |
| Interpreter.Vm.PushDword | vm.c:211-235 | pushes in place with the result and new state of `Properties.PushSpec` |
| Interpreter.Vm.PopDword | vm.c:239-261 | pops in place with the result and new state of `Properties.PopSpec`; a failed pop changes nothing |
| Interpreter.Vm.ReadAddressAndJump | vm.c:265-280 | validates the target, pushes ip + 5 and returns the target as next ip, as `Properties.TransferStep` describes per step |
| Interpreter.Vm.CompareDwords | vm.c:284-305 | updates FL in place as `Properties.CompareSpec` describes |
| Interpreter.Vm.Sub | vm.c:332-351 | returns and raises as `Properties.SubSpec` describes |
| Interpreter.Vm.Add | vm.c:309-328 | returns and raises as `Properties.AddSpec` describes |
| Interpreter.Vm.Mul | vm.c:355-374 | returns and raises as `Properties.MulSpec` describes (exact carry test) |
| Interpreter.Vm.Div | vm.c:378-394 | returns and raises as `Properties.DivSpec` describes |
| Interpreter.Vm.Calculate | vm.c:607-624 | dispatches to the helper of the arithmetic opcode |
| Interpreter.Vm.ExecuteMove | vm.c:552-582 | the MOV cases in place, with the effect of `Properties.MoveStep` |
| Interpreter.Vm.ExecuteIncDec | vm.c:584-596 | the INC/DEC case in place, with the effect of `Properties.IncDecStep` |
| Interpreter.Vm.ExecuteArith | vm.c:598-703 | the arithmetic cases in place, with the effect of `Properties.ArithStep` |
| Interpreter.Vm.ExecuteRet | vm.c:705-707 | the RET case in place, with the effect of `Properties.RetStep` |
| Interpreter.Vm.ExecuteCompare | vm.c:709-723 | the CMP cases in place, with the effect of `Properties.CompareStep` |
| Interpreter.Vm.ExecuteJump | vm.c:725-767 | the jump cases in place, with the effect of `Properties.JumpNotTakenStep` and `Properties.TransferStep` |
| Interpreter.Vm.ExecuteCall | vm.c:769-774 | the CALL case in place, with the effect of `Properties.TransferStep` |
| Interpreter.Vm.Step | vm.c:523-787 | one `vm_step` on the arrays returns the state and leaves exactly the machine of `Semantics.Step`, whose behaviour the `Properties` step lemmas state |
| Interpreter.Vm.Reset | vm.c:399-403 | zeroes registers, memory and stack in place, then IP = 512 |
| Interpreter.Vm.WriteMemory | vm.c:86 | copies the first size bytes to memory at the offset, leaving every other byte |
| Interpreter.Vm.WriteData | vm.c:405-422 | copies the first size bytes to the start of the data segment, leaving the rest of memory |
| Interpreter.Vm.WriteCode | vm.c:424-441 | copies the first size bytes to the start of the code segment (512), leaving the rest of memory |
| Interpreter.Vm.WriteRegisterAcceptsOnlyEx | vm.c:466-471 | the assertion of `vm_write_register` as written admits EX alone and refuses A0 |
| Interpreter.Vm.WriteRegister | vm.c:466-471 | as written: only for the ids its assertion admits, the register gets the value and no other register changes |
| Interpreter.Vm.WriteAnyRegister | vm.c:466-471 | for every id A0..EX the register gets the value and no other register changes |
| Interpreter.Vm.ReadDword | vm.c:473-479 | the big-endian dword at a data-segment address below 508 |
| Interpreter.Vm.WriteDword | vm.c:481-487 | after writing, the dword reads back as written and every byte outside its four is unchanged |

## Left out

- `vm_load_delvecchio` (vm.c:489-520): it reads the image from a `FILE *`; file I/O is not modelled. The segment writers it calls are modelled.
- `vm_print_registers` (vm.c:449-463): output to a stream only.
- main.c is not part of this model. It is the command-line driver.
- The x86 assembly paths (`_x86_swap_bytes`, `_x86_movl_swapped`, `_x86_memcpy32`) are not modelled separately. They have the same effect as the portable C paths, which are modelled for both host byte orders.
- Semantics.Step: requires `Defined`, which holds when EX is set or when three conditions hold. First, the bytes the step reads lie inside memory (an untaken jump reads only its opcode). Second, a decoded register is not 0, whose slot `(0 - 1) * 4` lies before the register file. Third, SP is a multiple of 4 no larger than 256 whenever the step reads or writes the stack: RET with SP at least 4, or CALL or a taken jump to an accepted target. Steps outside these cases are not modelled. The first two make the C read outside its arrays; the stack slot model of `Semantics.Push` is defined only for those SP values.
- Semantics.Push: stores the value in slot SP / 4. The byte offset 4 * SP that the C computes is modelled separately (see Findings). The C also swaps the bytes on push and back on pop; the two swaps cancel, so the model keeps values.
- Semantics.Calculate: multiplies exactly. The int64_t product of `_vm_mul` is modelled separately (see Findings).
- Interpreter.Vm.ExecuteMove: copies register and memory dwords as values. The C copies the four stored bytes; both stores are big-endian, so the result is the same.
- Interpreter.Vm.ReadDword: the `assert` of `vm_read_dword` is a precondition, and so are the assertions of `vm_write_dword`, `vm_write_data` and `vm_write_code`.
- Properties.IncDecStep: says nothing about the operand register when that register is IP. The step's own update of IP overwrites it, which `Properties.DataStepIp` states.
- Properties.MoveStep: says nothing about the target register when that register is IP, for the same reason.
- Semantics.Iterate: models a caller that ignores the states `vm_step` returns. It yields None once a step falls outside `Defined`.

## Findings

| source | as written | input that shows it | evidently intended | confidence | as-written member | corrected member |
|---|---|---|---|---|---|---|
| vm.c:466-471 | the assertion requires id >= A0 and id >= EX | writing A0 (or R, IP, SP, FL) fails the assertion | any id from A0 to EX is accepted | high; not executed | Interpreter.Vm.WriteRegisterAcceptsOnlyEx | Interpreter.Vm.WriteAnyRegister |
| vm.c:355-374 | the carry test compares the int64_t product with UINT32_MAX | 0xFFFFFFFF * 0xFFFFFFFF is above the int64_t range; on a two's-complement host it wraps negative, passes the test and leaves 1 | every product above 0xFFFFFFFF raises CARRY_OVER | medium (C leaves the signed overflow undefined); not executed | Properties.MulAsWrittenMissesCarry | Properties.MulSpec |
| vm.c:211-261 | push and pop address `vm->stack + sp`, an offset of sp dwords into a dword array | with SP = 64 (after 16 pushes) the push is accepted and stores at byte 256, past the end of the 256-byte stack | the dword at byte offset SP, slot SP / 4, so that 64 pushes fit | high; not executed | Properties.StackOverrunExample | Properties.PushSpec |
