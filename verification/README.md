# Wine's ARM signal layer, modelled in Dafny

This project models the 32-bit ARM part of Wine's Unix-side ntdll, `dlls/ntdll/unix/signal_arm.c`.
That file connects the host's POSIX signals and Wine's system-call layer. The model covers:

- **The CONTEXT translator** (module `ArmContext`, file `context.dfy`). It covers `save_context`,
  `restore_context`, `save_fpu`, `restore_fpu` and `get_extended_sigcontext`. The signal context
  is a `UContext` class. Its machine registers are a field, and its `uc_regspace` is a byte
  array holding the chain of `{magic, size}` records. The VFP record in that chain carries
  d0..d31 and fpscr.
- **The syscall frame** (module `SyscallFrame`, file `frame.dfy`). It covers the register part of
  `struct syscall_frame`. `NtSetContextThread` and `NtGetContextThread` on the current thread
  are modelled as record maps between a frame and a CONTEXT. The return path of
  `__wine_syscall_dispatcher` is modelled too: which registers it reloads from the frame
  depends on the `restore_flags` bits.
- **The syscall dispatcher** (module `SyscallDispatcher`, file `dispatcher.dfy`). It covers:
  - decoding the syscall id in ip (r12) into a service table and a service number;
  - the `ServiceLimit` check;
  - copying the stack arguments into an 8-byte-aligned area below the frame.
- **The thread state** (module `ThreadState`, file `thread.dfy`). `Thread` is a class holding
  the current syscall frame and the chain of `prev_frame` links. The `Frame` class holds the
  frame registers, the service tables and the callback fields. The following methods rewrite the
  current frame:
  - `NtSetContextThread`, `NtGetContextThread` and `signal_set_full_context`;
  - `call_user_apc_dispatcher`, `call_raise_user_exception_dispatcher` and
    `call_user_exception_dispatcher`;
  - `KeUserModeCallback` and `NtCallbackReturn`, which push and pop a callback frame;
  - `call_init_thunk`.

  Lemmas state where the dispatcher's return path then lands.
- **The signal handlers** (module `Signals`, file `signals.dfy`). These cover:
  - `get_trap_code` and `get_error_code`;
  - the exception records that `segv_handler`, `trap_handler`, `fpe_handler` and
    `abrt_handler` build;
  - `is_inside_syscall` and `handle_syscall_fault`;
  - `setup_exception`, which either returns after the debugger handled the exception or sends
    the signal context into `raise_func_trampoline`;
  - the two branches of `usr1_handler`.
- **The builtin-module unwinder** (module `Unwind`, file `unwind.dfy`). This is
  `unwind_builtin_dll`, with libunwind's answers as inputs. It covers the lookup at Pc − 2 for
  an unwound return address, the leaf-function fallback, the result of a step, and the fix-up
  of Lr out of `raise_func_trampoline`.

Registers and addresses are 32-bit bit-vectors, so pointer arithmetic wraps as on the target.
fpscr and the VFP registers are only copied, so they are plain numbers. Memory is little-endian
bytes. Code the model cannot see becomes a parameter:

- the server, for another thread's context;
- `virtual_handle_fault`;
- `send_debug_event`;
- `virtual_setup_exception`;
- `wait_suspend`;
- libunwind;
- the halfword at the faulting Pc;
- the word stored at an address.

## Model

| member | source | states |
|---|---|---|
| Words.ThumbPc | dlls/ntdll/unix/signal_arm.c:381 | The Pc that save_context reports has bit 0 set exactly when the CPSR is in Thumb state or the Pc already had it. It is otherwise the Pc itself. |
| Words.WithThumb | dlls/ntdll/unix/signal_arm.c:404-405 | Forcing the CPSR Thumb bit sets it to the requested value and keeps every other bit. |
| Words.SetLowBitBits | dlls/ntdll/unix/signal_arm.c:477-479 | Forcing bit 0 of an address gives that bit the requested value and keeps all the others. |
| Words.SetLowBitUnchanged | dlls/ntdll/unix/signal_arm.c:477-479 | Forcing bit 0 to the value it already has changes nothing. |
| Words.AlignDown | dlls/ntdll/unix/signal_arm.c:632 | An address aligned down has the masked bits clear, is not above the original, and differs from it only in those bits. |
| Words.NatOfBytesOf | dlls/ntdll/unix/signal_arm.c:144-145 | Storing a number in enough little-endian bytes and loading it back gives the number. |
| Words.BytesOfNatOf | dlls/ntdll/unix/signal_arm.c:135-136 | Loading little-endian bytes and storing the number back gives the same bytes. |
| Words.LoadNatIsNatOf | dlls/ntdll/unix/signal_arm.c:122 | A 32-bit load at an offset is the number held by the four bytes there. |
| Words.QuadsRoundTrip | dlls/ntdll/unix/signal_arm.c:144 | Writing d0..d31 into the record and reading them back gives the same registers. |
| Words.QuadsBytesOf | dlls/ntdll/unix/signal_arm.c:135 | Reading a run of 8-byte registers and writing it back gives the same bytes. |
| ArmContext.FindRecord | dlls/ntdll/unix/signal_arm.c:119-128 | The record found carries the magic sought and a nonzero size, and its header lies wholly inside uc_regspace at or after the scan's start. |
| ArmContext.FindRecordFirst | dlls/ntdll/unix/signal_arm.c:119-128 | The record found lies on the chain of records the scan walks from its start, and no record before it on that chain carries the magic sought. |
| ArmContext.FindRecordAbsent | dlls/ntdll/unix/signal_arm.c:119-128 | When the scan finds nothing, no record on the chain it walks carries the magic sought. |
| ArmContext.FindRecordPrefix | dlls/ntdll/unix/signal_arm.c:119-128 | The record found depends only on the bytes before the end of its header, so rewriting a record's payload does not move the search. |
| ArmContext.ScanStops | dlls/ntdll/unix/signal_arm.c:122 | The scan ends without a record at a zero magic, at a zero size, and where no header fits. |
| ArmContext.UContext.GetExtendedSigcontext | dlls/ntdll/unix/signal_arm.c:119-128 | The loop over the byte array finds the record that FindRecord specifies, with the guard of the Findings below corrected. |
| ArmContext.VfpBlock | dlls/ntdll/unix/signal_arm.c:132-136 | The VFP record is used exactly when the scan finds it and its fpregs and fpscr fit in the region. The record used carries the VFP magic. |
| ArmContext.VfpImage | dlls/ntdll/unix/signal_arm.c:144-145 | The payload written back is fpregs[32] followed by fpscr, 260 bytes. |
| ArmContext.RestoreFpu | dlls/ntdll/unix/signal_arm.c:139-146 | restore_fpu never changes the size of uc_regspace. Without a usable VFP record it changes nothing. With one, the bytes up to the end of the record header and the bytes after the 260-byte payload are kept, and the payload becomes the image of the CONTEXT's fpregs and fpscr. |
| ArmContext.RestoreFpuKeepsBlock | dlls/ntdll/unix/signal_arm.c:139-146 | Rewriting the VFP payload keeps the record chain, so the same VFP record is found afterwards. |
| ArmContext.SaveFpuOfImage | dlls/ntdll/unix/signal_arm.c:130-137 | save_fpu reads back exactly the VFP registers and fpscr whose image the record holds. |
| ArmContext.ImageDecodes | dlls/ntdll/unix/signal_arm.c:135-136 | The record image of a CONTEXT decodes to its d0..d31 and fpscr. |
| ArmContext.ImageOfPayload | dlls/ntdll/unix/signal_arm.c:144-145 | A VFP payload re-encoded from its own decoding is byte-for-byte the same payload. |
| ArmContext.RestoreThenSave | dlls/ntdll/unix/signal_arm.c:367-407 | restore_context followed by save_context gives back R0..R12, Sp, Lr and Pc, with ContextFlags = CONTEXT_FULL. The Cpsr comes back with its Thumb bit following Pc bit 0. d0..d31 and fpscr come back exactly when uc_regspace holds a usable VFP record; otherwise they are those of the CONTEXT save_context started from. |
| ArmContext.SaveThenRestore | dlls/ntdll/unix/signal_arm.c:367-407 | save_context followed by restore_context leaves uc_regspace and the machine registers as they were, with two exceptions. The CPSR Thumb bit follows Pc bit 0, and Pc has bit 0 set when the CPSR was in Thumb state. |
| ArmContext.SaveFpuKeepsRegisters | dlls/ntdll/unix/signal_arm.c:130-137 | save_fpu changes only the VFP registers and fpscr of the CONTEXT. |
| ArmContext.SaveThenRestoreFpu | dlls/ntdll/unix/signal_arm.c:130-146 | Writing back the VFP registers just read leaves uc_regspace unchanged. |
| ArmContext.UContext.constructor | dlls/ntdll/unix/signal_arm.c:79-86 | A signal context holds the given machine registers and a fresh uc_regspace with the given bytes. |
| ArmContext.UContext.Save | dlls/ntdll/unix/signal_arm.c:367-383 | save_context on the object computes the CONTEXT that SaveContext specifies. Its properties are stated in the lemmas above. |
| ArmContext.UContext.Restore | dlls/ntdll/unix/signal_arm.c:391-407 | restore_context changes the registers as RestoreRegs specifies and uc_regspace as RestoreFpu specifies, and nothing else. |
| ArmContext.FindRecordAsWritten | dlls/ntdll/unix/signal_arm.c:119-128 | The scan with the source's own loop test on headers. A record it finds starts before the end of the region and carries the magic. Its step is an unbounded sum, so it stops where the 32-bit source wraps; AsWrittenWalkCycles shows the wrap. |
| ArmContext.NextRecordAsWritten | dlls/ntdll/unix/signal_arm.c:125 | The next record address is ctx + size when that fits in 32 bits, and ctx + size − 2^32 when it does not. |
| ArmContext.AsWrittenReadsPastRegion | dlls/ntdll/unix/signal_arm.c:122 | Given a header that starts 4 bytes before the end of the region, the as-written scan's answer changes with the bytes after the region. FindRecord finds nothing in the same region. |
| ArmContext.AsWrittenWalkCycles | dlls/ntdll/unix/signal_arm.c:122-125 | For two records of sizes 8 and 0xfffffff8 at any base, both pass the source's loop test and neither carries the VFP magic. The 32-bit step from the second leads back to the first, so the search for the VFP record never ends. |
| ArmContext.FindRecordStopsOnWrap | dlls/ntdll/unix/signal_arm.c:119-128 | On the same two records the corrected scan stops with no record. |
| ArmContext.VfpBlockAsWritten | dlls/ntdll/unix/signal_arm.c:132-136 | save_fpu's lookup takes any VFP header found, without a check on the payload. |
| ArmContext.AsWrittenVfpOverruns | dlls/ntdll/unix/signal_arm.c:132-136 | A VFP header in the last 8 bytes is taken by the as-written lookup although its payload lies past the end. VfpBlock refuses it. |
| SyscallFrame.GainedBits | dlls/ntdll/unix/signal_arm.c:486 | The bits NtSetContextThread adds to restore_flags never include the integer bit. They include the control and FP bits exactly for the requested groups. |
| SyscallFrame.GainedKeeps | dlls/ntdll/unix/signal_arm.c:486 | restore_flags only gains bits, and never the integer bit. |
| SyscallFrame.GainedSets | dlls/ntdll/unix/signal_arm.c:486 | After the OR, the FP and control reload bits are set exactly when they were set before or the group was requested. |
| SyscallFrame.ReportedGroups | dlls/ntdll/unix/signal_arm.c:507-537 | NtGetContextThread keeps every ContextFlags bit outside CONTEXT_ALL. It reports the full integer flag exactly when it filled that group. |
| SyscallFrame.ReportedGroupsControlFp | dlls/ntdll/unix/signal_arm.c:524-537 | NtGetContextThread reports the full control and FP flags exactly when it filled those groups. |
| SyscallFrame.ReportedMasked | dlls/ntdll/unix/signal_arm.c:498-537 | Apart from CONTEXT_ARM, the flags reported are the flags asked for. |
| SyscallFrame.ReportedRequests | dlls/ntdll/unix/signal_arm.c:498-537 | A CONTEXT read back requests the same groups when it is set again. |
| SyscallFrame.FramePcBits | dlls/ntdll/unix/signal_arm.c:477-479 | The frame Pc has bit 0 set exactly in Thumb state and agrees with the CONTEXT's Pc in every other bit. |
| SyscallFrame.ApplyContextGroups | dlls/ntdll/unix/signal_arm.c:445-488 | NtSetContextThread copies each requested register group into the frame and leaves every other group untouched. The frame Pc's bit 0 follows the Thumb bit. |
| SyscallFrame.ApplyContextControl | dlls/ntdll/unix/signal_arm.c:473-480 | The control group: Sp, Lr, Cpsr and the Thumb-adjusted Pc when requested, and untouched otherwise. |
| SyscallFrame.ApplyContextOthers | dlls/ntdll/unix/signal_arm.c:457-485 | The integer and FP groups are copied when requested and untouched otherwise. |
| SyscallFrame.ApplyContextRestoreFlags | dlls/ntdll/unix/signal_arm.c:486 | restore_flags keeps its bits and its integer bit. It gains the FP and control bits exactly for the requested groups. |
| SyscallFrame.ApplyContextIdempotent | dlls/ntdll/unix/signal_arm.c:445-488 | Setting the same CONTEXT twice is the same as setting it once. |
| SyscallFrame.ReadContext | dlls/ntdll/unix/signal_arm.c:495-539 | The ContextFlags of the CONTEXT that is read are the reported flags. |
| SyscallFrame.ReadContextGroups | dlls/ntdll/unix/signal_arm.c:495-539 | NtGetContextThread fills exactly the requested groups from the frame and leaves every other field alone. |
| SyscallFrame.SetThenGet | dlls/ntdll/unix/signal_arm.c:445-539 | Reading back a CONTEXT just set gives the CONTEXT itself, with its groups reported and, when the control group was set, the Pc bit 0 following the Thumb bit. |
| SyscallFrame.GetThenSet | dlls/ntdll/unix/signal_arm.c:445-539 | Setting what was just read changes no register of a consistent frame. restore_flags only gains the requested bits. |
| SyscallFrame.GetThenSetRegisters | dlls/ntdll/unix/signal_arm.c:445-539 | In that round trip r0..r12, Sp, Lr, Cpsr, fpscr and d0..d31 stay as they were. |
| SyscallFrame.GetThenSetPc | dlls/ntdll/unix/signal_arm.c:477-479 | In that round trip the Pc of a frame whose bit 0 follows its Thumb bit stays as it was. |
| SyscallFrame.GetThenSetFlags | dlls/ntdll/unix/signal_arm.c:486 | In that round trip restore_flags gains exactly the bits the request gains. |
| SyscallFrame.ApplyContextFlags | dlls/ntdll/unix/signal_arm.c:486 | The new restore_flags is the old one ORed with the gained bits. |
| SyscallFrame.GainedReported | dlls/ntdll/unix/signal_arm.c:486 | The reported flags gain the same restore bits as the flags requested. |
| SyscallFrame.GainedMasked | dlls/ntdll/unix/signal_arm.c:486 | Apart from the ARM and integer bits, the reported flags are the requested ones. |
| SyscallFrame.EntryCpsr | dlls/ntdll/unix/signal_arm.c:1153-1155 | The stored CPSR has the Thumb bit of the return address and keeps every other bit. |
| SyscallFrame.CallerSp | dlls/ntdll/unix/signal_arm.c:1150-1151 | The saved Sp is the caller's, 16 bytes above the r0..r3 it pushed. |
| SyscallFrame.EnterFrame | dlls/ntdll/unix/signal_arm.c:1146-1163 | Entry saves r4..r12, the return address as Pc, the caller's Sp and Lr (held in r3), fpscr and d0..d15, and clears restore_flags. It keeps r0..r3 and d16..d31 of the frame. The stored Pc's bit 0 agrees with the stored Thumb bit. |
| SyscallFrame.ReturnPathRegisters | dlls/ntdll/unix/signal_arm.c:1190-1206 | The return path takes r4..r12, Sp, Lr and Pc from the frame, and the Thumb state from bit 0 of that Pc. It takes r0..r3 from the frame only with the integer bit, and fpscr and d0..d15 only with the FP bit; otherwise these stay live. d16..d31 are never touched. The tst of the integer bit leaves N clear and Z set exactly when that bit is clear. Every other CPSR bit is the live one. |
| SyscallFrame.ReturnCpsrIsTst | dlls/ntdll/unix/signal_arm.c:1190-1206 | The CPSR on the way out is that of `tst ip, #2` on the live CPSR, with the Thumb bit then taken from the Pc. |
| SyscallFrame.ReturnCpsrBits | dlls/ntdll/unix/signal_arm.c:1190-1206 | That CPSR has the requested Thumb state, N clear, Z set exactly when restore_flags lacks the integer bit, and every other bit unchanged. |
| SyscallFrame.ReturnCpsrIdempotent | dlls/ntdll/unix/signal_arm.c:1190-1206 | Computing that CPSR again from its own result changes nothing. |
| SyscallFrame.ReturnPathIdempotent | dlls/ntdll/unix/signal_arm.c:1190-1206 | Returning twice through the same frame is the same as returning once, flags included. |
| SyscallFrame.PlainSyscallReturnsToCaller | dlls/ntdll/unix/signal_arm.c:1146-1206 | A system call that leaves its frame alone returns to its return address with its status in r0. The caller's r4..r12 and Sp are as they were before the call, and Lr is the one the caller left in r3. restore_flags is clear, so fpscr and d0..d31 are not reloaded: they are the ones the service left. The CPSR is in the return address's instruction set, with N clear and Z set; every other bit is that of the live CPSR. |
| SyscallDispatcher.TableOf | dlls/ntdll/unix/signal_arm.c:1168 | Bits 12-13 of the id select one of the four tables. |
| SyscallDispatcher.NumberOf | dlls/ntdll/unix/signal_arm.c:1169 | Bits 0-11 of the id are the service number. |
| SyscallDispatcher.SyscallId | dlls/ntdll/unix/signal_arm.c:1168-1169 | A table and a number combine into an id below 0x4000. |
| SyscallDispatcher.DecodeSyscallId | dlls/ntdll/unix/signal_arm.c:1168-1169 | Decoding an id built from a table and a number gives back that table and number. |
| SyscallDispatcher.SyscallIdOfDecode | dlls/ntdll/unix/signal_arm.c:1168-1169 | Every id is the id of its own table and number, apart from the bits above bit 13. |
| SyscallDispatcher.DecodeIgnoresHighBits | dlls/ntdll/unix/signal_arm.c:1168-1169 | The bits above bit 13 change neither the table nor the number. |
| SyscallDispatcher.SpillBytes | dlls/ntdll/unix/signal_arm.c:1174-1178 | The byte count is the ArgumentTable entry when it exceeds 16, and 16 otherwise. It is a whole number of words when the entry is. |
| SyscallDispatcher.SpillBaseAligned | dlls/ntdll/unix/signal_arm.c:1179-1180 | The spill area is 8-byte aligned, at most 7 bytes below frame − size. |
| SyscallDispatcher.SpillBelowFrame | dlls/ntdll/unix/signal_arm.c:1179-1180 | The spill area ends at or below the frame, so the copy never overwrites it. |
| SyscallDispatcher.SpillArguments | dlls/ntdll/unix/signal_arm.c:1181-1185 | The copy loop leaves exactly the first `words` words of the caller's stack in the spill area. |
| SyscallDispatcher.InvalidLive | dlls/ntdll/unix/signal_arm.c:1164-1210 | For an out-of-range id the live r0 is STATUS_INVALID_PARAMETER, r1 the frame, r2 the caller's Sp and r3 the caller's, with Sp 16 bytes above the frame. The carry of `cmp ip, r5` is set exactly when the id is out of range, and every CPSR bit outside N, Z, C and V is kept. Lr, fpscr and the VFP registers are untouched. |
| SyscallDispatcher.InvalidLiveScratch | dlls/ntdll/unix/signal_arm.c:1164-1172 | At that point r4 is the address of the id's table descriptor, r5 its ServiceLimit, r6 the Sp at entry, r8 the frame and ip the id's low 12 bits. r7 and r9..r11 are the caller's. |
| SyscallDispatcher.CmpFlags | dlls/ntdll/unix/signal_arm.c:1171-1172 | `cmp a, b` sets the carry exactly when a ≥ b unsigned, which is what `bcs` tests. It keeps every CPSR bit outside N, Z, C and V. |
| SyscallDispatcher.InvalidIdReturnsToCaller | dlls/ntdll/unix/signal_arm.c:1164-1210 | An id beyond its table's limit calls nothing. The caller resumes at its return address with STATUS_INVALID_PARAMETER in r0, the frame in r1, its own Sp in r2 and its r3..r12 back. Sp, Lr, fpscr and the VFP registers are back too. The CPSR is in the return address's instruction set, with N clear and Z and C set. |
| SyscallDispatcher.ArgBytesOf | dlls/ntdll/unix/signal_arm.c:1174-1178 | The bytes copied for an in-range id are the ArgumentTable entry when it exceeds 16, and 16 otherwise. They are a whole number of words below 256. |
| ThreadState.Frame.constructor | dlls/ntdll/unix/signal_arm.c:701-720 | A new callback frame holds the given registers, link, tables, ret_ptr and ret_len, with status 0. |
| ThreadState.InitialCpsrBits | dlls/ntdll/unix/signal_arm.c:1090-1091 | The initial CPSR is in Thumb state exactly for a Thumb entry point, and has every other bit clear. |
| ThreadState.Thread.constructor | dlls/ntdll/unix/signal_arm.c:1047-1049 | A thread starts with a single frame and no guarded access pending. |
| ThreadState.Thread.NtSetContextThread | dlls/ntdll/unix/signal_arm.c:445-488 | For another thread the server's status is returned and the frame is unchanged, unless the server answers success and reports that the handle is the calling thread. For the calling thread, the frame becomes ApplyContext of it (see the SyscallFrame lemmas) and the result is STATUS_SUCCESS. The frame chain stays well formed. |
| ThreadState.Thread.NtGetContextThread | dlls/ntdll/unix/signal_arm.c:495-539 | For another thread the server's status and CONTEXT are returned, unless the server answers success and reports that the handle is the calling thread. For the calling thread the result is ReadContext of the frame with STATUS_SUCCESS. The server's CONTEXT is taken to reach the caller, as the Findings below explain. |
| ThreadState.AsWrittenIgnoresReply | dlls/ntdll/unix/signal_arm.c:503 | As written, a successful call on another thread returns STATUS_SUCCESS, but the caller gets the server's CONTEXT only if it already held it. |
| ThreadState.Thread.SignalSetFullContext | dlls/ntdll/unix/signal_arm.c:413-420 | The frame takes the CONTEXT. When the whole integer group was given, the integer reload bit is set as well. |
| ThreadState.Thread.SyscallDispatch | dlls/ntdll/unix/signal_arm.c:1145-1189 | The frame is saved as EnterFrame specifies. An out-of-range id returns to the caller with STATUS_INVALID_PARAMETER. An in-range id calls its service with r0..r3 popped from the spill area, whose remaining words are the caller's stack arguments. |
| ThreadState.Thread.CallUserApcDispatcher | dlls/ntdll/unix/signal_arm.c:620-654 | The result is the given status. The APC block holds the CONTEXT that was given, or the frame's full CONTEXT with R0 = status. The frame becomes the APC entry frame. |
| ThreadState.Thread.EnterApcDispatcher | dlls/ntdll/unix/signal_arm.c:645-652 | The frame points at KiUserApcDispatcher(&context, arg1, arg2, arg3) on the block and asks for control and integer reloads. |
| ThreadState.Thread.CallRaiseUserExceptionDispatcher | dlls/ntdll/unix/signal_arm.c:660-663 | Only the frame Pc changes, and it becomes KiRaiseUserExceptionDispatcher. |
| ThreadState.Thread.CallUserExceptionDispatcher | dlls/ntdll/unix/signal_arm.c:669-684 | The result is STATUS_SUCCESS, and the frame takes the CONTEXT and is then sent to KiUserExceptionDispatcher(rec, context). |
| ThreadState.Thread.EnterExceptionDispatcher | dlls/ntdll/unix/signal_arm.c:677-682 | The frame is sent to KiUserExceptionDispatcher(rec, context) on the Sp and Lr saved before the CONTEXT was set. |
| ThreadState.Thread.KeUserModeCallback | dlls/ntdll/unix/signal_arm.c:699-726 | With less than min_kernel_stack left, the call returns STATUS_STACK_OVERFLOW and nothing changes. Otherwise a fresh frame linked to the old one becomes current. It enters KiUserCallbackDispatcher on the 16-byte-aligned copy of the arguments. |
| ThreadState.Thread.NtCallbackReturn | dlls/ntdll/unix/signal_arm.c:732-743 | Without a previous frame the call returns STATUS_NO_CALLBACK_ACTIVE and nothing changes. Otherwise it gives the callback's ret_ptr and ret_len slots with the values to store there, records the status in the callback frame and pops it. |
| ThreadState.Thread.CallbackRoundTrip | dlls/ntdll/unix/signal_arm.c:699-743 | A callback that returns through NtCallbackReturn leaves the thread on the frame it started from, with the same chain. KeUserModeCallback returns the status given to NtCallbackReturn, or STATUS_STACK_OVERFLOW. |
| ThreadState.Thread.CallInitThunk | dlls/ntdll/unix/signal_arm.c:1081-1110 | The stored CONTEXT is the initial or resumed one with CONTEXT_FULL, placed one CONTEXT below the aligned stack. The frame becomes the thread's only frame, enters LdrInitializeThunk, and takes the given service tables. |
| ThreadState.Thread.EnterLdrInitializeThunk | dlls/ntdll/unix/signal_arm.c:1101-1106 | The frame enters LdrInitializeThunk(ctx) on the stored CONTEXT with the integer reload bit, has no previous frame, and holds the given service tables. |
| ThreadState.CallbackEntersDispatcher | dlls/ntdll/unix/signal_arm.c:708-723 | Through the callback frame the return path enters KiUserCallbackDispatcher(id, args, len) on the copied arguments. r3..r12 and Lr are zero whatever the live registers held, and the VFP registers are the live ones. |
| ThreadState.ArgsDataAligned | dlls/ntdll/unix/signal_arm.c:709 | The arguments are copied to a 16-byte-aligned address at most 15 bytes below Sp − len. |
| ThreadState.ApcEntersDispatcher | dlls/ntdll/unix/signal_arm.c:620-654 | After call_user_apc_dispatcher the return path enters KiUserApcDispatcher(&block.context, arg1, arg2, arg3) on the block. r4..r12 and Lr are those of the CONTEXT that was set, or of the frame. |
| ThreadState.ApcStackAligned | dlls/ntdll/unix/signal_arm.c:632-633 | The APC block lies just below the 16-byte-aligned Sp, and the CONTEXT it holds is 16-byte aligned. |
| ThreadState.ExceptionEntersDispatcher | dlls/ntdll/unix/signal_arm.c:669-684 | The return path enters KiUserExceptionDispatcher(rec, context) on the frame's earlier Sp and Lr, whatever the CONTEXT said about them. |
| ThreadState.FullContextReloads | dlls/ntdll/unix/signal_arm.c:413-420 | With the whole integer group, the thread resumes with R0..R12 of the CONTEXT. |
| ThreadState.SetContextKeepsStatus | dlls/ntdll/unix/signal_arm.c:486 | NtSetContextThread alone leaves r0..r3 to the live registers, so r0 carries the system call's status, even for a CONTEXT with the integer group. |
| ThreadState.InitThunkEntersLdr | dlls/ntdll/unix/signal_arm.c:1096-1109 | The new thread enters LdrInitializeThunk(ctx) on the stored CONTEXT. r1..r12, Lr, fpscr and d0..d15 come from that CONTEXT. |
| ThreadState.ContextBelowAligned | dlls/ntdll/unix/signal_arm.c:1096 | The initial CONTEXT is stored 16-byte aligned, just below the aligned stack. |
| Words.SignedOf | dlls/ntdll/unix/signal_arm.c:328 | A trap number read as a C int is in the int range and agrees with the word modulo 2^32. |
| Signals.TrapCodeSource | dlls/ntdll/unix/signal_arm.c:325-344 | A nonzero hardware trap number is the trap code. Without one, SIGILL gives a privileged instruction, SIGSEGV a page fault and SIGBUS an alignment fault. Every other signal gives TRAP_ARM_UNKNOWN. |
| Signals.ErrorCodeWriteBit | dlls/ntdll/unix/signal_arm.c:352-359 | The error code fits in a WORD and keeps bit 11, the write-access bit. |
| Signals.SegvRecordRaises | dlls/ntdll/unix/signal_arm.c:800-835 | Nothing is raised exactly when the page-fault service resolved a page fault. Whatever is raised has a nonzero code, no flags and at most two parameters. |
| Signals.SegvPageFault | dlls/ntdll/unix/signal_arm.c:814-821 | A page fault carries the write flag (1 exactly when bit 11 is set) and the fault address, with the page-fault service's code. |
| Signals.SegvIllegal | dlls/ntdll/unix/signal_arm.c:805-834 | An illegal instruction is a breakpoint with one parameter exactly when it is 0xdefe. Otherwise, as for any unknown trap code, it is EXCEPTION_ILLEGAL_INSTRUCTION without parameters. |
| Signals.SegvBySignal | dlls/ntdll/unix/signal_arm.c:822-830 | Without a trap number, SIGBUS is a misalignment and any other signal except SIGILL and SIGSEGV is an access violation at 0xffffffff. |
| Signals.TrapRecordCases | dlls/ntdll/unix/signal_arm.c:846-862 | A trace trap is a single step without parameters. Every other SIGTRAP is a breakpoint with one parameter. |
| Signals.LowHalf | dlls/ntdll/unix/signal_arm.c:874 | si_code & 0xffff lies in 0..0xffff. |
| Signals.FpeCodeInjective | dlls/ntdll/unix/signal_arm.c:874-917 | Each FPE_* code maps to its own exception code, and the code can be recovered from it. |
| Signals.FpeRecordCases | dlls/ntdll/unix/signal_arm.c:870-919 | Only the low 16 bits of si_code count. A code outside FPE_INTDIV..FPE_FLTSUB is an invalid operation, and the record has no parameters and a nonzero code. |
| Signals.HandleSyscallFault | dlls/ntdll/unix/signal_arm.c:751-790 | The fault is taken over exactly inside a system call or with a guard pending. If it is not, nothing changes. A pending guard sends the signal into __wine_longjmp(jmp_buf, 1) and clears the guard. Otherwise the signal goes to __wine_syscall_dispatcher_return(frame, code). |
| Signals.SyscallFaultReturnsCode | dlls/ntdll/unix/signal_arm.c:785-787 | A system call that faults returns to its caller's return address with the exception code as its status. Its r4..r12, Sp and Lr are restored. fpscr and d0..d31 are those of the signal context's VFP record, the state at the fault; they are not reloaded from the frame. |
| Signals.RaiseContextEntersTrampoline | dlls/ntdll/unix/signal_arm.c:606-613 | raise_func_trampoline is entered in its own instruction set with the other CPSR bits kept. The record lies right after the CONTEXT in the block, r1 is the block, and r3..r12 are those of the fault. |
| Signals.SetupException | dlls/ntdll/unix/signal_arm.c:579-614 | The exception address is the faulting Pc. If the debugger continued or handled the exception, the signal context is restored from its CONTEXT. Otherwise the record and CONTEXT go to the block below Sp & ~3, the signal context enters the trampoline returning to the CONTEXT's Pc, and uc_regspace is untouched. |
| Signals.RaiseException | dlls/ntdll/unix/signal_arm.c:587-613 | The block is requested at Sp & ~3 and the signal context is sent to raise_func_trampoline. |
| Signals.SegvHandler | dlls/ntdll/unix/signal_arm.c:798-838 | Nothing changes exactly when the fault was resolved. The handler returns through handle_syscall_fault exactly when a record exists and the thread was in a system call or a guarded access. There a pending guard is cleared and the signal context sent to __wine_longjmp; otherwise it goes to __wine_syscall_dispatcher_return with the code. uc_regspace is kept. When it raises an exception, no guard is left pending. If the debugger handled it, the signal context is restored from the answer's CONTEXT. Otherwise the block is requested at Sp & ~3 and the signal context enters raise_func_trampoline. |
| Signals.Usr1Handler | dlls/ntdll/unix/signal_arm.c:967-984 | Inside a system call the frame takes the CONTEXT that wait_suspend returns for the full CONTEXT read from it, and the signal context is untouched. Outside one, the signal context takes the CONTEXT wait_suspend returns for the saved one, and the frame is untouched. |
| Signals.SuspendInsideUnchanged | dlls/ntdll/unix/signal_arm.c:971-977 | A suspension inside a system call that leaves the CONTEXT alone leaves the frame's registers alone. The frame only gains the control and FP reload bits. |
| Unwind.UnwindFails | dlls/ntdll/unix/signal_arm.c:243-279 | Without libunwind, or when set-up, the lookup or the step fails, the result is INVALID_DISPOSITION with both contexts unchanged. |
| Unwind.UnwindLeaf | dlls/ntdll/unix/signal_arm.c:256-267 | Without information covering the address, the function is taken for a leaf. There is no handler, the frame is at Sp and Pc becomes Lr. The status is SUCCESS exactly when that moves Pc, and INVALID_DISPOSITION otherwise. The CONTEXT is marked unwound to call. |
| Unwind.UnwindStep | dlls/ntdll/unix/signal_arm.c:281-301 | After a step the CONTEXT holds the caller's registers and the handler and LSDA are recorded with the frame at the old Sp. Lr is the word stored there exactly when the function was raise_func_trampoline. The status is SUCCESS. |
| Unwind.MarkUnwound | dlls/ntdll/unix/signal_arm.c:266 | An unwound CONTEXT has CONTEXT_UNWOUND_TO_CALL set and keeps every other flag. |
| Unwind.TrampolineMatch | dlls/ntdll/unix/signal_arm.c:292-293 | The trampoline test accepts the trampoline's address with bit 0 either way, and nothing else. |
| Unwind.UnwindIpBefore | dlls/ntdll/unix/signal_arm.c:232 | For a return address already unwound to the call, the address looked up is 2 bytes before Pc, with 32-bit wrap-around. Otherwise it is Pc itself. |

## Left out

- uc_regspace is a byte array, not an array of words. The record chain advances by byte sizes, and words are loaded little-endian from it.
- Calls into code outside this file become inputs:
  - `set_thread_context` and `get_thread_context` (the server's answer for another thread);
  - `virtual_handle_fault`;
  - `send_debug_event`;
  - `virtual_setup_exception` (the block address);
  - `wait_suspend`;
  - libunwind (`unw_init_local`, `unw_get_proc_info`, `unw_step`, `unw_get_reg`);
  - the halfword at the faulting Pc;
  - the word at EstablisherFrame.
- The assembly routines are modelled only through their effect on registers. These are `raise_func_trampoline`, `signal_start_thread`, `signal_exit_thread`, `__wine_setjmpex` and `__wine_longjmp`. Jumping back into KeUserModeCallback is `CallbackRoundTrip`, not a real non-local return.
- The memory writes through pointers are left out. This covers the callback arguments' `memcpy` to the user stack, the APC block, the initial CONTEXT, the exception block, the stores through ret_ptr and ret_len, and the copy of the initial CONTEXT into the cpu area. The model returns the values and addresses written instead.
- Thread.CallUserExceptionDispatcher: the early return of NtSetContextThread's error is not modelled. NtSetContextThread on the calling thread always returns STATUS_SUCCESS, so the branch cannot be taken.
- Thread.CallInitThunk: the CONTEXT after suspension is an input. It is not tied to the initial CONTEXT handed to wait_suspend.
- Thread.SyscallDispatch: the ArgumentTable entries are taken to be multiples of 4, as the dispatcher's word-by-word copy needs.
- Thread.SyscallDispatch: the service's own work and the return through `4:` are not part of the method. The return is covered by ReturnPath and its lemmas.
- `min_kernel_stack` and the kernel stack base are fields of the thread, set when it is created.
- The following are not part of this model: `int_handler` and `quit_handler` (thread creation and `abort_thread`), `signal_init_process` (installing the handlers), the wow64 and LDT stubs, `get_native_context` and `get_wow_context`, and all logging.
- Signals.SegvHandler: the trap, FPE and abort handlers are modelled as the records they build (`TrapRecord`, `FpeRecord`, `AbrtRecord`). Each then calls `SetupException` just as SegvHandler does.
- Signals.Usr1Handler: the contract states the frame and signal-context updates, but not the ignored statuses of NtGetContextThread and NtSetContextThread.
- The soft-float build (no VFP save and restore) is left out. The model is the VFP build In that build the return path does not test the FP bit first, which changes no register the model follows.
- SyscallDispatcher.CmpFlags: N, Z and V are computed, but only the carry and the untouched bits are stated. On the way out the tst of the return path replaces N and Z.
- SyscallFrame.TstFlags: the `tst` of the return path is defined by its effect on N and Z, and its properties are stated through ReturnCpsrIsTst and ReturnCpsrBits rather than on TstFlags itself.
- Thread.SyscallDispatch: the address of the thread's service-table descriptors (frame->syscall_table) is a parameter, `tablesAddr`. Only its role in r4 on the invalid-id path is followed.
- Thread.NtGetContextThread: the model returns the server's CONTEXT for another thread, and AsWrittenIgnoresReply states the best case of what the code does instead. The overwrite of NtGetContextThread's stack beyond the local pointer is not modelled, and neither is the self path after the as-written call, which reads through the overwritten local pointer.
- d16..d31 are never saved or reloaded by the syscall dispatcher. The model keeps them but does not follow what user code does with them.

## Findings

| source | as written | input that shows it | evidently intended | confidence | as-written member | corrected member |
|---|---|---|---|---|---|---|
| dlls/ntdll/unix/signal_arm.c:122 | The loop goes on while a record *starts* before the end of the ucontext, so it reads an 8-byte header that begins fewer than 8 bytes before the end of uc_regspace from the memory after it. | A 12-byte region: a record of magic 1 and size 8, then the VFP magic in its last 4 bytes. The answer is Some(8) or None depending on the bytes after the region. | Scan only headers that lie wholly inside uc_regspace. | low: the kernel lays out well-formed records; not executed | ArmContext.FindRecordAsWritten, ArmContext.AsWrittenReadsPastRegion | ArmContext.FindRecord |
| dlls/ntdll/unix/signal_arm.c:125 | The next record is at ctx + size in 32-bit pointer arithmetic, so a huge size wraps around to an earlier record. | Records of sizes 8 and 0xfffffff8 at the start of uc_regspace. The scan comes back to the first one and, without the magic sought, never ends. | Stop when the next record lies beyond the region. | low: the kernel lays out well-formed records; not executed | ArmContext.AsWrittenWalkCycles | ArmContext.FindRecord, ArmContext.FindRecordStopsOnWrap |
| dlls/ntdll/unix/signal_arm.c:132-135 | save_fpu and restore_fpu copy 260 bytes after any VFP header found, without checking that they fit in uc_regspace. | A VFP header in the last 8 bytes of the region: it is taken, although its payload lies past the end. | Use the VFP record only when fpregs and fpscr fit in the region. | low: the kernel lays out well-formed records; not executed | ArmContext.VfpBlockAsWritten, ArmContext.AsWrittenVfpOverruns | ArmContext.VfpBlock |
| dlls/ntdll/unix/signal_arm.c:503 | get_thread_context is passed `&context`, the address of the 4-byte local pointer, not the caller's CONTEXT. A callee that fills a CONTEXT there writes a whole CONTEXT (0x1a0 bytes) from that address, past the pointer into NtGetContextThread's stack frame, and reads the requested ContextFlags from the pointer's own bytes. | Any handle of another thread whose server reply succeeds. At best the call returns STATUS_SUCCESS and the caller's CONTEXT as it was passed; in general the stack of NtGetContextThread is overwritten. | Pass `context`, as NtSetContextThread passes it to set_thread_context at line 454. | medium: the prototype of get_thread_context is not part of this model; not executed | ThreadState.AsWrittenIgnoresReply | ThreadState.Thread.NtGetContextThread |
