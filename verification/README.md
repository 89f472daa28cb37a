# Verification of the ServiceCall dispatch thunk

ServiceCall lets one process call a function of another. On the server the parameters of a call
arrive as a block in memory, and a hand-written x64 thunk, `__x64ServiceCall`, turns that block into
a call that follows the Microsoft x64 calling convention ("Parameter passing", "Stack usage",
"Caller/callee saved registers"): it pads the slot count, pushes the values last to first, fills the
four register arguments from the stack, calls the routine and unwinds. This project models the thunk
instruction by instruction, for every 32-bit parameter count, and proves what it promises, together
with the rounding macro `N_ROUND_UP` of the message sizes. Nothing here was executed.

## How it is modelled

* `Words.dfy`, `X64.dfy`, `MemoryLaws.dfy`: 32- and 64-bit words with explicit truncation, bitwise AND,
  byte-addressed little-endian memory, and a small-step semantics of the instructions the thunk is
  written in. Writing 32 bits of a register clears its upper half. A flag the architecture leaves
  undefined is `Undefined`, and jumping on it is a fault, as is an access past the top of the address
  space. Every access is logged, and no instruction changes memory without logging a store.
* `Instructions.dfy`: each instruction's result, flags and faults stated from its operands alone, for
  both widths and all operands, not only those the thunk meets.
* `Thunk.dfy`, `Layout.dfy`: the listing, instruction by instruction with its labels resolved; the
  parameter block and the frame. `Admissible` is what the thunk needs of its caller: a block that is
  all there, room on the stack, and no overlap between the two.
* `Blocks.dfy`, `LoopRun.dfy`, `CallRun.dfy`: the run of the listing, from stretches of one or two
  instructions up to the whole way from entry to the routine, with exact instruction counts.
* `Delivery.dfy`, `Frame.dfy`, `Convention.dfy`, `Nesting.dfy`, `Marshal.dfy`: the main results about
  the thunk. The routine is an arbitrary relation between the state it is entered in and the state it
  returns in; it may overwrite volatile registers, its argument and padding slots and everything else
  outside the bytes its callers rely on. Those bytes are any set for one thunk call, and in the
  convention's own terms the memory above a routine's argument slots, for nested calls too. The block
  layout is the one ServiceCall/ServiceCall.h declares at lines 87-105.
* `InPlace.dfy`: the thunk as a structured program on a machine updated in place, with the loop of
  lines 38-43 as a loop, proved to agree with the run of the listing; and the pseudo-code of the
  listing's comments, with its 32-bit variables, and exactly when the machine code refines it.
* `Rounding.dfy`: the macro `N_ROUND_UP`.

## Where code, comments and expectations part

* The comment on line 35 of the listing reads as if the cursor started one blob past the last; line 33
  starts it at the last one. The model follows the code (`LoopRun.CursorAtLoopHead`).
* The comments use 32-bit variables. The machine code has the same slot count, padding and pushes for
  every count except 2^32 - 1, and the same frame size only up to 2^29 - 2 parameters
  (`InPlace.Machine.RunComments`, `InPlace.CommentsRefinedIff`).
* With fewer than four parameters the thunk fills the remaining argument registers from padding it
  never wrote, so they hold old stack contents (`Delivery.AbsentArguments`).
* `N_ROUND_UP` yields the least multiple exactly when its 32-bit sum does not wrap, and only for powers
  of two (`Rounding.RoundsUpIff`, `Rounding.PowersOnly`).

## Model

| member | source | states |
|---|---|---|
| X64.RunAdd | ServiceCall/x64.asm:12-52 | runs compose: j instructions and then k are a run of j + k |
| Words.AndBits | ServiceCall/NtPort.h:93 | AND agrees with the conjunction of bits at every position |
| Words.BitValue | ServiceCall/NtPort.h:93 | bit i of a value is the parity of the value divided by 2^i |
| Words.SignedValues | ServiceCall/x64.asm:15-16 | the signed value of a word lies between -2^31 and 2^31, or -2^63 and 2^63, and truncates to the word |
| Words.ByteValue | ServiceCall/x64.asm:40 | byte i of a value is the value divided by 2^(8i), modulo 256 |
| MemoryLaws.Read32Bytes | ServiceCall/x64.asm:14 | a dword is the sum of its four bytes, least significant first |
| MemoryLaws.Read64Bytes | ServiceCall/x64.asm:40-48 | a qword is the sum of its eight bytes, least significant first |
| MemoryLaws.Write64Bytes | ServiceCall/x64.asm:40 | a stored qword leaves its eight bytes, least significant first |
| Words.AndOne | ServiceCall/x64.asm:19 | testing against 1 tests oddness |
| MemoryLaws.ReadWritten | ServiceCall/x64.asm:40 | a stored qword is loaded back, through its eight little-endian bytes |
| MemoryLaws.ReadElsewhere | ServiceCall/x64.asm:40 | a store does not disturb a qword apart from it |
| Layout.SlotsLeast | ServiceCall/x64.asm:15-21 | the slot count is the least even number that is at least the count and at least four |
| Layout.PushedRead | ServiceCall/x64.asm:38-43 | after the pushes each value is found in its slot |
| Layout.PushedElsewhere | ServiceCall/x64.asm:38-43 | the pushes change no byte outside the slots |
| X64.ComparisonFlags | ServiceCall/x64.asm:15-39 | after a comparison of either width je and jnl decide equality and signed order of the operands, also when the subtraction overflows |
| InstructionLaws.ComparisonOrder | ServiceCall/x64.asm:15-39 | the same in terms of the words alone: their order when their top bits agree, the top bit when they differ |
| InstructionLaws.FlagValues | ServiceCall/x64.asm:15-39 | ZF, SF and OF after ADD, SUB, CMP and TEST of either width, from the operands, the result and its top bit |
| InstructionLaws.AluEffect | ServiceCall/x64.asm:15-38 | ADD, SUB, CMP and TEST as instructions: when they fault, what they write, which flags they leave |
| InstructionLaws.IncEffect | ServiceCall/x64.asm:21 | INC is an ADD of 1, flags included |
| InstructionLaws.DecEffect | ServiceCall/x64.asm:42 | DEC is a SUB of 1, flags included |
| InstructionLaws.ShiftEffect | ServiceCall/x64.asm:24-34 | a shift by more than one position multiplies by the power of two, sets ZF and SF from the result and leaves OF undefined |
| InstructionLaws.MoveEffect | ServiceCall/x64.asm:13-33 | MOV and LEA: when they fault and what they write, zero-extended from 32 bits |
| InstructionLaws.PushEffect | ServiceCall/x64.asm:12-49 | PUSH and CALL: when they fault, what they store, where rsp goes |
| InstructionLaws.PopEffect | ServiceCall/x64.asm:51-52 | POP and RET: when they fault, what they load, where rsp goes |
| InstructionLaws.JumpEffect | ServiceCall/x64.asm:16-43 | when a conditional jump is taken, and that it faults exactly on an undefined flag |
| InstructionLaws.FlagsKept | ServiceCall/x64.asm:12-52 | instructions that move data or control leave the flags as they were |
| LoopRun.WidenCount | ServiceCall/x64.asm:15-21 | with its flags and branches, the code leaves the padded slot count in rax, in a number of instructions given by the count |
| LoopRun.SlotArithmetic | ServiceCall/x64.asm:14-26 | the mixed 32/64-bit arithmetic is exact for every count, 2^32 - 1 included: frame size in rbx, missing slots in r8 |
| LoopRun.CountKept | ServiceCall/x64.asm:12-32 | saving rbx does not disturb the count the thunk reads three times |
| LoopRun.CursorInBlock | ServiceCall/x64.asm:33-41 | with k parameters left the cursor is the address of blob k - 1 and moving it goes to the blob before |
| LoopRun.ParamKept | ServiceCall/x64.asm:40 | every value the loop loads is still the caller's |
| LoopRun.Iterate | ServiceCall/x64.asm:38-43 | an iteration takes six instructions and pushes exactly the next parameter |
| LoopRun.LoopToBreak | ServiceCall/x64.asm:37-44 | with k parameters to push the loop is left after exactly 6k + 2 instructions with all of them stored |
| LoopRun.CursorAtLoopHead | ServiceCall/x64.asm:32-43 | at each loop head of a run from entry the counter is k and the next load lies inside the block |
| CallRun.ToRoutine | ServiceCall/x64.asm:12-49 | the run from entry reaches the routine after an exact number of instructions, in an exactly known state, with the flags of the last comparison: ZF set, SF and OF clear |
| Delivery.ArgumentsDelivered | ServiceCall/x64.asm:12-49 | for every count, block and admissible start the routine is entered with exactly the parameters of the block, in slots and registers, and the right return address |
| Delivery.AlignedBeforeCall | ServiceCall/x64.asm:12-49 | before the call the stack is 16-byte aligned exactly when the entry alignment was right; r10 is the routine, the parameters are in their slots, the four loaded slots lie below the intact saved rbx |
| Delivery.AbsentArguments | ServiceCall/x64.asm:25-48 | with fewer than four parameters the other argument registers hold what the stack held where the padding is |
| Delivery.CallDependsOnlyOn | ServiceCall/x64.asm:12-49 | two starts with the same registers, parameter values and stale padding enter the routine alike, whatever else memory holds |
| Delivery.AllAllowed | ServiceCall/x64.asm:12-49 | every access on the way down is a stack access inside the frame or a read inside the block |
| Delivery.CallContiguous | ServiceCall/x64.asm:12-49 | no stack access is more than 32 bytes below the lowest one before it |
| Delivery.ContiguousMeans | ServiceCall/x64.asm:12-49 | what that says of each access, against the least address touched before it |
| Frame.ExecAccounted | ServiceCall/x64.asm:12-52 | an instruction changes no byte of memory that it does not log a store to |
| Frame.RunAccounted | ServiceCall/x64.asm:12-52 | the same over whole runs |
| Frame.AllowedAtEveryStep | ServiceCall/x64.asm:12-49 | at no instruction down to the call is there a fault, and every access so far is an allowed one |
| Frame.FrameAtEveryStep | ServiceCall/x64.asm:12-49 | at every instruction memory outside the frame is as it was on entry |
| Frame.BlockAtEveryStep | ServiceCall/x64.asm:14-40 | at every instruction the block has the count and the parameters it had on entry |
| Frame.ContiguousAtEveryStep | ServiceCall/x64.asm:12-49 | at every instruction the stack has grown without a gap |
| Convention.VitalAboveSlots | ServiceCall/x64.asm:23-51 | what the thunk needs kept lies above all argument and padding slots, which the routine may overwrite |
| Convention.NonvolatileRegisters | ServiceCall/x64.asm:6-53 | the nonvolatile registers are rbx, rbp, rsi, rdi and r12 to r15 |
| Convention.Unwind | ServiceCall/x64.asm:50-52 | once a routine is back the thunk returns in three instructions, whatever memory holds |
| Convention.ThunkKeeps | ServiceCall/x64.asm:6-53 | if the routine keeps the convention so does the thunk: return address, stack pointer, nonvolatile registers, callers' bytes, and rax is the routine's result |
| Convention.ImmediateReturn | ServiceCall/x64.asm:6-53 | for every admissible start there is a routine that keeps the convention, hence a complete call |
| Convention.ThunkKeepsConvention | ServiceCall/x64.asm:6-53 | if the routine leaves the memory above its argument and padding slots alone, the thunk leaves the memory above its return address alone, and keeps the rest of the convention |
| Convention.RestoredIff | ServiceCall/x64.asm:12-52 | of a routine that comes back to the return site the thunk needs exactly that rsp + rbx leads to the saved rbx and that the saved rbx and the return address are intact; otherwise it faults or returns wrongly |
| Frame.LeavesTogether | ServiceCall/x64.asm:49-52 | a run leaves the listing at one point only |
| Nesting.NestedKeeps | ServiceCall/x64.asm:6-53 | thunk calls nested to any depth, with arbitrary routines between them, keep the convention towards the outermost caller; nothing is assumed about where the frames lie |
| Nesting.CallsItself | ServiceCall/x64.asm:6-49 | a thunk handed itself as routine and its own block as parameter enters itself in the same situation one frame further down |
| Nesting.ChainPerforms | ServiceCall/x64.asm:6-53 | for every depth the stack has room for there are that many thunk calls inside one another |
| Nesting.SelfCallingExists | ServiceCall/x64.asm:6-53 | such a start exists for every depth whose frames fit the address space |
| Marshal.BlockStored | ServiceCall/x64.asm:14-41 | a block of a count, an unused dword and 16 bytes a parameter with the value in the upper half, laid out byte by byte, reads back as its count and its values in order |
| Marshal.UnreadStored | ServiceCall/x64.asm:14-41 | such a block also holds the unused dword and, in front of each value, the eight bytes of its tag |
| Marshal.RoundTrip | ServiceCall/x64.asm:6-49 | laying any list of values out as a block and running the thunk enters the routine with that list |
| Marshal.EveryListHasAStart | ServiceCall/x64.asm:6-53 | every list of values has an admissible, aligned start state, so the results are about something |
| InPlace.Machine.CountSlots | ServiceCall/x64.asm:12-21 | in place: rbx saved, rax the padded slot count |
| InPlace.Machine.ReservePadding | ServiceCall/x64.asm:23-30 | in place: frame size, missing slots, stack pointer |
| InPlace.Machine.PushParameters | ServiceCall/x64.asm:37-43 | in place: the loop ends with all parameters in their slots and the registers of the listing |
| InPlace.Machine.EnterRoutine | ServiceCall/x64.asm:12-49 | in place: registers and memory at the routine are those of the run of the listing |
| InPlace.Machine.LeaveThunk | ServiceCall/x64.asm:50-52 | in place: registers and memory after the return are those of the run of the listing |
| InPlace.Machine.FrameAsCommented | ServiceCall/x64.asm:14-43 | the pseudo-code of the comments: its slot count, frame size, stack pointer and pushes |
| InPlace.CommentWidths | ServiceCall/x64.asm:14-27 | where the pseudo-code's 32-bit variables agree with the machine's 64-bit ones, and to what they wrap where not |
| InPlace.CommentStart | ServiceCall/x64.asm:12-36 | from every admissible start the pseudo-code has the block the thunk was given and room for its frame |
| InPlace.Machine.RunComments | ServiceCall/x64.asm:14-43 | the pseudo-code, run after rbx is saved, ends with the machine's slot count and stack pointer exactly when the count is not 2^32 - 1, then with its memory too; with its frame size exactly up to 2^29 - 2 parameters |
| InPlace.CommentsRefinedIff | ServiceCall/x64.asm:14-43 | the same on the values the pseudo-code computes, as a statement about the run of the listing |
| Rounding.NotBits | ServiceCall/NtPort.h:93 | the complement flips each of the 32 bits |
| Rounding.RoundBits | ServiceCall/NtPort.h:92-93 | the macro bit by bit, for every value and every alignment, 0 and other non-powers of two included |
| Rounding.MaskIsDivision | ServiceCall/NtPort.h:93 | clearing the low k bits of a word drops its remainder modulo 2^k |
| Rounding.RoundsUpIff | ServiceCall/NtPort.h:92-93 | for every power of two the macro is the least multiple from x on exactly when x + s - 1 does not wrap; otherwise it is 0 |
| Rounding.PowersOnly | ServiceCall/NtPort.h:92-93 | an alignment is right for all sums that do not wrap exactly when it is a power of two |
| Rounding.Idempotent | ServiceCall/NtPort.h:92-93 | rounding twice is rounding once, wrapped sums included |
| Rounding.MonotoneIff | ServiceCall/NtPort.h:92-93 | rounding preserves the order of two values exactly when the larger sum does not wrap or the smaller value is rounded to 0 |
| Rounding.RoundsToLarger | ServiceCall/NtPort.h:92-93 | rounding to one power of two and then another is rounding to the larger, for every value, wrapped sums included |
| Rounding.SlotsAreRounded | ServiceCall/x64.asm:15-21 | the thunk's slot count is what the macro gives for alignment 2, except at 2^32 - 1, where they differ by 2^32 |

## Left out

- The service registry, the register, unregister and call protocol, parameter capture, type matching and pointer mapping: ServiceCall.cpp is not part of this model, and of ServiceCall.h only the block layout is. The first eight bytes of each blob are opaque, as they are to the thunk.
- NtPort.cpp, Native.cpp and str.cpp: each function forwards to the operating system.
- Native.h and the rest of NtPort.h: structure layouts and prototypes.
- The values behind `LPCP_MAX_MESSAGE_SIZE`: constants settled by evaluation.
- client/main.cpp and server/main.cpp as programs: samples over macros of ServiceCall.h.
- Unwind metadata, exceptions through the thunk, page faults, and other threads changing the block during a call.
- Flags other than ZF, SF and OF: nothing in the thunk reads them. Floating-point and vector registers: the thunk does not touch them.
- Shifts by 0 or 1, which leave other flags: the listing shifts by 3 and 4 only.
- Encodings of the instructions: of all code addresses only the thunk's entry and its return site appear, as two distinct arbitrary words.
- InPlace.Machine.EnterRoutine: the routine itself is not a method; the way down and the way back up are two methods, and between them stands any state the convention allows.
