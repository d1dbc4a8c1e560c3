// The host signal handlers: how a fault becomes an EXCEPTION_RECORD, when a fault inside
// a system call is sent back to the system call's caller instead, and how the signal
// context is rewritten so that the exception is raised in user mode.

module Signals {
  import opened Words
  import opened NtDefs
  import opened ArmContext
  import opened SyscallFrame
  import opened ThreadState

  /** An EXCEPTION_RECORD: ExceptionCode, ExceptionFlags, ExceptionAddress, and the
      ExceptionInformation words in use (NumberParameters is their count). */
  datatype ExceptionRecord = ExceptionRecord(code: Word, flags: Word, address: Word, params: seq<Word>)

  /** A record as the handlers build it from `{ 0 }`: no flags, no address yet. */
  function Record(code: Word, params: seq<Word>): (rec: ExceptionRecord)
  {
    ExceptionRecord(code, 0, 0, params)
  }

  // ---------------------------------------------------------------------------
  // Classification

  // enum arm_trap_code
  const TRAP_ARM_UNKNOWN: int := -1
  const TRAP_ARM_PRIVINFLT: int := 6
  const TRAP_ARM_PAGEFLT: int := 14
  const TRAP_ARM_ALIGNFLT: int := 17

  /** The breakpoint instruction (udf #0xfe in Thumb). */
  const THUMB_BREAKPOINT: int := 0xdefe

  /** get_trap_code: the hardware trap number when there is one, else a code for the signal. */
  function GetTrapCode(signal: int, trapNo: Word): (trap: int)
  {
    if trapNo != 0 then SignedOf(trapNo as int)
    else if signal == SIGILL then TRAP_ARM_PRIVINFLT
    else if signal == SIGSEGV then TRAP_ARM_PAGEFLT
    else if signal == SIGBUS then TRAP_ARM_ALIGNFLT
    else TRAP_ARM_UNKNOWN
  }

  /** A nonzero hardware trap number is the trap code (as a C int); without one the code
      is chosen by the signal alone: a privileged instruction for SIGILL, a page fault for
      SIGSEGV, an alignment fault for SIGBUS, and "unknown" exactly for any other signal. */
  lemma TrapCodeSource(signal: int, trapNo: Word)
    ensures trapNo != 0 ==>
              GetTrapCode(signal, trapNo) != 0 && GetTrapCode(signal, trapNo) % 0x1_0000_0000 == trapNo as int
    ensures trapNo == 0 ==>
              (GetTrapCode(signal, trapNo) == TRAP_ARM_UNKNOWN <==> signal !in {SIGILL, SIGSEGV, SIGBUS})
    ensures trapNo == 0 && signal == SIGILL ==> GetTrapCode(signal, trapNo) == TRAP_ARM_PRIVINFLT
    ensures trapNo == 0 && signal == SIGSEGV ==> GetTrapCode(signal, trapNo) == TRAP_ARM_PAGEFLT
    ensures trapNo == 0 && signal == SIGBUS ==> GetTrapCode(signal, trapNo) == TRAP_ARM_ALIGNFLT
  {
  }

  /** get_error_code: error_code truncated to the 16-bit WORD the function returns. */
  function GetErrorCode(errorCode: Word): (e: Word)
  {
    errorCode & 0xffff
  }

  /** The truncation keeps bit 11, the bit that marks a write access. */
  lemma ErrorCodeWriteBit(errorCode: Word)
    ensures GetErrorCode(errorCode) < 0x1_0000
    ensures GetErrorCode(errorCode) & 0x800 == errorCode & 0x800
  {
  }

  /** ExceptionInformation[0] of a page fault: 1 for a write access, 0 for a read. */
  function WriteAccess(errorCode: Word): (w: Word)
  {
    if GetErrorCode(errorCode) & 0x800 != 0 then 1 else 0
  }

  /** The record segv_handler builds for a trap code. `insn` is the halfword at Pc and
      `resolved` what virtual_handle_fault answers for the fault address, the access
      and the stack pointer (0 when it handled the fault itself, and nothing is raised). */
  function SegvRecord(trap: int, insn: int, errorCode: Word, siAddr: Word, resolved: Word): (r: Option<ExceptionRecord>)
  {
    if trap == TRAP_ARM_PRIVINFLT then
      Some(if insn == THUMB_BREAKPOINT then Record(EXCEPTION_BREAKPOINT, [0]) else Record(EXCEPTION_ILLEGAL_INSTRUCTION, []))
    else if trap == TRAP_ARM_PAGEFLT then
      if resolved == 0 then None else Some(Record(resolved, [WriteAccess(errorCode), siAddr]))
    else if trap == TRAP_ARM_ALIGNFLT then Some(Record(EXCEPTION_DATATYPE_MISALIGNMENT, []))
    else if trap == TRAP_ARM_UNKNOWN then Some(Record(EXCEPTION_ACCESS_VIOLATION, [0, 0xffff_ffff]))
    else Some(Record(EXCEPTION_ILLEGAL_INSTRUCTION, []))
  }

  /** Nothing is raised exactly when the page-fault service resolved the fault; whatever
      is raised has a nonzero code, no flags, and at most two parameters. */
  lemma SegvRecordRaises(trap: int, insn: int, errorCode: Word, siAddr: Word, resolved: Word)
    ensures var r := SegvRecord(trap, insn, errorCode, siAddr, resolved);
      && (r.None? <==> trap == TRAP_ARM_PAGEFLT && resolved == 0)
      && (r.Some? ==> r.value.code != 0 && r.value.flags == 0 && |r.value.params| <= 2)
  {
  }

  /** A page fault carries the write flag (from bit 11 of the error code) and the fault
      address, and is raised with the code the page-fault service chose. */
  lemma SegvPageFault(insn: int, errorCode: Word, siAddr: Word, resolved: Word)
    requires resolved != 0
    ensures var r := SegvRecord(TRAP_ARM_PAGEFLT, insn, errorCode, siAddr, resolved);
      && r.Some? && r.value.code == resolved && |r.value.params| == 2 && r.value.params[1] == siAddr
      && (r.value.params[0] == 1 <==> errorCode & 0x800 != 0)
      && (r.value.params[0] == 0 <==> errorCode & 0x800 == 0)
  {
    ErrorCodeWriteBit(errorCode);
  }

  /** An illegal instruction is a breakpoint (one parameter) exactly when it is the
      breakpoint instruction; any trap code the switch does not know is an illegal
      instruction as well. */
  lemma SegvIllegal(trap: int, insn: int, errorCode: Word, siAddr: Word, resolved: Word)
    requires trap == TRAP_ARM_PRIVINFLT || trap !in {TRAP_ARM_PAGEFLT, TRAP_ARM_ALIGNFLT, TRAP_ARM_UNKNOWN}
    ensures var r := SegvRecord(trap, insn, errorCode, siAddr, resolved);
      && r.Some?
      && (r.value.code == EXCEPTION_BREAKPOINT <==> trap == TRAP_ARM_PRIVINFLT && insn == THUMB_BREAKPOINT)
      && (r.value.code != EXCEPTION_BREAKPOINT ==> r.value.code == EXCEPTION_ILLEGAL_INSTRUCTION && r.value.params == [])
      && (r.value.code == EXCEPTION_BREAKPOINT ==> |r.value.params| == 1)
  {
  }

  /** A signal without a hardware trap number: SIGBUS is a misalignment, and a signal
      other than SIGILL, SIGSEGV and SIGBUS an access violation at 0xffffffff. */
  lemma SegvBySignal(signal: int, insn: int, errorCode: Word, siAddr: Word, resolved: Word)
    requires signal != SIGILL && signal != SIGSEGV
    ensures var r := SegvRecord(GetTrapCode(signal, 0), insn, errorCode, siAddr, resolved);
      && r.Some?
      && (signal == SIGBUS ==> r.value.code == EXCEPTION_DATATYPE_MISALIGNMENT && r.value.params == [])
      && (signal != SIGBUS ==> r.value.code == EXCEPTION_ACCESS_VIOLATION && r.value.params == [0, 0xffff_ffff])
  {
    TrapCodeSource(signal, 0);
  }

  /** The record trap_handler builds for si_code. */
  function TrapRecord(siCode: int): (rec: ExceptionRecord)
  {
    if siCode == TRAP_TRACE then Record(EXCEPTION_SINGLE_STEP, []) else Record(EXCEPTION_BREAKPOINT, [0])
  }

  /** A trace trap is a single step without parameters; every other SIGTRAP (a
      breakpoint or an unknown code) is a breakpoint with one. */
  lemma TrapRecordCases(siCode: int)
    ensures TrapRecord(siCode).code == EXCEPTION_SINGLE_STEP <==> siCode == TRAP_TRACE
    ensures TrapRecord(siCode).code == EXCEPTION_BREAKPOINT <==> siCode != TRAP_TRACE
    ensures |TrapRecord(siCode).params| == (if siCode == TRAP_TRACE then 0 else 1)
  {
  }

  /** The low 16 bits of si_code, as `si_code & 0xffff` gives them for a C int. */
  function LowHalf(siCode: int): (h: int)
    ensures 0 <= h < 0x1_0000
  {
    siCode % 0x1_0000
  }

  /** The exception code fpe_handler chooses for the low half of si_code. */
  function FpeCode(code: int): (e: Word)
  {
    if code == FPE_FLTSUB as int then EXCEPTION_ARRAY_BOUNDS_EXCEEDED
    else if code == FPE_INTDIV as int then EXCEPTION_INT_DIVIDE_BY_ZERO
    else if code == FPE_INTOVF as int then EXCEPTION_INT_OVERFLOW
    else if code == FPE_FLTDIV as int then EXCEPTION_FLT_DIVIDE_BY_ZERO
    else if code == FPE_FLTOVF as int then EXCEPTION_FLT_OVERFLOW
    else if code == FPE_FLTUND as int then EXCEPTION_FLT_UNDERFLOW
    else if code == FPE_FLTRES as int then EXCEPTION_FLT_INEXACT_RESULT
    else EXCEPTION_FLT_INVALID_OPERATION
  }

  /** The record fpe_handler builds for si_code: no parameters. */
  function FpeRecord(siCode: int): (rec: ExceptionRecord)
  {
    Record(FpeCode(LowHalf(siCode)), [])
  }

  /** The si_code each exception code comes from (FPE_FLTINV for invalid operation). */
  function FpeSiCode(e: Word): (code: int)
  {
    if e == EXCEPTION_ARRAY_BOUNDS_EXCEEDED then FPE_FLTSUB as int
    else if e == EXCEPTION_INT_DIVIDE_BY_ZERO then FPE_INTDIV as int
    else if e == EXCEPTION_INT_OVERFLOW then FPE_INTOVF as int
    else if e == EXCEPTION_FLT_DIVIDE_BY_ZERO then FPE_FLTDIV as int
    else if e == EXCEPTION_FLT_OVERFLOW then FPE_FLTOVF as int
    else if e == EXCEPTION_FLT_UNDERFLOW then FPE_FLTUND as int
    else if e == EXCEPTION_FLT_INEXACT_RESULT then FPE_FLTRES as int
    else FPE_FLTINV as int
  }

  /** Each FPE_* code names its own exception: the code is recovered from the exception,
      so no two of them share one. */
  lemma FpeCodeInjective(code: int)
    requires FPE_INTDIV as int <= code <= FPE_FLTSUB as int
    ensures FpeSiCode(FpeCode(code)) == code
  {
  }

  /** Only the low 16 bits of si_code count, and a code outside FPE_INTDIV..FPE_FLTSUB
      (a signal sent by kill or sigqueue, say) is an invalid operation. */
  lemma FpeRecordCases(siCode: int)
    ensures FpeRecord(siCode) == FpeRecord(LowHalf(siCode))
    ensures !(FPE_INTDIV as int <= LowHalf(siCode) <= FPE_FLTSUB as int) ==>
              FpeRecord(siCode).code == EXCEPTION_FLT_INVALID_OPERATION
    ensures FpeRecord(siCode).params == [] && FpeRecord(siCode).code != 0
  {
    assert LowHalf(LowHalf(siCode)) == LowHalf(siCode);
  }

  /** The record abrt_handler builds: a non-continuable assertion failure. */
  const AbrtRecord: ExceptionRecord := ExceptionRecord(EXCEPTION_WINE_ASSERTION, EH_NONCONTINUABLE, 0, [])

  // ---------------------------------------------------------------------------
  // Faults inside a system call

  /** is_inside_syscall: the stack pointer lies on the kernel stack, at or below the
      current syscall frame. */
  predicate IsInsideSyscall(sp: Word, kernelStack: Word, frame: Word)
  {
    kernelStack <= sp <= frame
  }

  /** The signal context sent to __wine_longjmp(jmpBuf, 1). */
  function LongjmpContext(mc: MContext, jmpBuf: Word, longjmp: Word): (t: MContext)
  {
    mc.(r := mc.r[0 := jmpBuf][1 := 1], pc := longjmp)
  }

  /** The signal context sent to __wine_syscall_dispatcher_return(frame, code). */
  function SyscallFaultContext(mc: MContext, frame: Word, code: Word, dispatcherReturn: Word): (t: MContext)
  {
    mc.(r := mc.r[0 := frame][1 := code], pc := dispatcherReturn)
  }

  /** handle_syscall_fault: a fault is taken over when the thread was inside a system call
      or had a guarded access pending. A pending guard wins: the signal returns into
      __wine_longjmp(jmp_buf, 1) and the guard is cleared; otherwise it returns into
      __wine_syscall_dispatcher_return(frame, code). */
  method HandleSyscallFault(uc: UContext, t: Thread, rec: ExceptionRecord) returns (handled: bool)
    modifies uc`mc, t`jmpBuf
    ensures handled <==> IsInsideSyscall(old(uc.mc.sp), t.kernelStack, t.frame.addr) || old(t.jmpBuf) != 0
    ensures !handled ==> uc.mc == old(uc.mc) && t.jmpBuf == old(t.jmpBuf)
    ensures handled && old(t.jmpBuf) != 0 ==> uc.mc == LongjmpContext(old(uc.mc), old(t.jmpBuf), t.entries.longjmp)
    ensures handled && old(t.jmpBuf) == 0 ==>
              uc.mc == SyscallFaultContext(old(uc.mc), t.frame.addr, rec.code, t.entries.dispatcherReturn)
    ensures handled ==> t.jmpBuf == 0
  {
    if !IsInsideSyscall(uc.mc.sp, t.kernelStack, t.frame.addr) && t.jmpBuf == 0 {
      return false;
    }
    if t.jmpBuf != 0 {
      uc.mc := LongjmpContext(uc.mc, t.jmpBuf, t.entries.longjmp);
      t.jmpBuf := 0;
    } else {
      uc.mc := SyscallFaultContext(uc.mc, t.frame.addr, rec.code, t.entries.dispatcherReturn);
    }
    return true;
  }

  /** The live registers once the signal returns into __wine_syscall_dispatcher_return:
      r0 takes r1, and the VFP registers are those of the signal context's VFP record. */
  function DispatcherReturnLive(mc: MContext, fpscr: U32, d: FpRegs): (live: Cpu)
  {
    Cpu(mc.r[0 := mc.r[1]], mc.sp, mc.lr, mc.pc, mc.cpsr, fpscr, d)
  }

  /** A system call that faults while its frame is as the dispatcher saved it returns to
      its caller with the exception code as its status, its r4..r12, sp and lr restored,
      at its return address. restore_flags is clear, so the VFP state is the one the
      signal return restored from the fault (`fpscr` and `d`), not the caller's. */
  lemma SyscallFaultReturnsCode(fs: FrameState, cpu: Cpu, mc: MContext, frame: Word, code: Word,
                                dispatcherReturn: Word, fpscr: U32, d: FpRegs)
    ensures var out := ReturnPath(EnterFrame(fs, cpu),
                                  DispatcherReturnLive(SyscallFaultContext(mc, frame, code, dispatcherReturn), fpscr, d));
      && out.r[0] == code && out.r[4..] == cpu.r[4..]
      && out.sp == CallerSp(cpu.sp) && out.lr == cpu.r[3] && out.pc == cpu.lr
      && out.d == d && out.fpscr == fpscr
  {
    var live := DispatcherReturnLive(SyscallFaultContext(mc, frame, code, dispatcherReturn), fpscr, d);
    PlainSyscallReturnsToCaller(fs, cpu, code, live);
  }

  // ---------------------------------------------------------------------------
  // Raising the exception in user mode

  /** send_debug_event's answer: its status and the CONTEXT as it leaves it. */
  datatype DebugAnswer = DebugAnswer(status: Word, context: Context)

  /** What setup_exception did: either the debugger dealt with the exception and the
      signal context was restored from the CONTEXT, or the record and CONTEXT were stored
      in a block at `block` (requested from virtual_setup_exception at `stackPtr`). */
  datatype Setup =
    | Continued
    | Raised(stackPtr: Word, block: Word, rec: ExceptionRecord, context: Context)

  /** The debugger's statuses that mean the exception was dealt with. */
  predicate DebuggerHandled(status: Word)
  {
    status == DBG_CONTINUE || status == DBG_EXCEPTION_HANDLED
  }

  /** The signal context sent to raise_func_trampoline(&block.rec, &block.context,
      KiUserExceptionDispatcher) on the stack at `block`, returning to the faulting Pc. */
  function RaiseContext(mc: MContext, faultPc: Word, block: Word, entries: EntryPoints): (t: MContext)
  {
    mc.(sp := block, lr := faultPc, pc := entries.raiseTrampoline,
        cpsr := WithThumb(mc.cpsr, LowBit(entries.raiseTrampoline)),
        r := mc.r[0 := block + CONTEXT_SIZE][1 := block][2 := entries.exceptionDispatcher])
  }

  /** The trampoline is entered in its own instruction set, the record lies right after
      the CONTEXT in the block, and r3..r12 are those of the fault. */
  lemma RaiseContextEntersTrampoline(mc: MContext, faultPc: Word, block: Word, entries: EntryPoints)
    ensures var t := RaiseContext(mc, faultPc, block, entries);
      && ThumbSet(t.cpsr) == LowBit(entries.raiseTrampoline)
      && t.cpsr & !THUMB == mc.cpsr & !THUMB
      && t.r[0] - t.r[1] == CONTEXT_SIZE && t.r[1] == t.sp
      && t.r[3..] == mc.r[3..]
  {
  }

  /** setup_exception: records the faulting Pc as the exception address, captures the
      CONTEXT and asks the debugger; when the debugger dealt with it the signal context is
      restored from the CONTEXT it left, and otherwise the record and CONTEXT go into the
      block virtual_setup_exception gives below Sp & ~3 and the signal context enters
      raise_func_trampoline. `base` is the uninitialised CONTEXT save_context starts from,
      `debug` stands for send_debug_event, and `block` is the address virtual_setup_exception
      answers for the request at Sp & ~3. */
  method SetupException(uc: UContext, rec: ExceptionRecord, base: Context,
                        debug: (ExceptionRecord, Context) -> DebugAnswer,
                        block: Word, entries: EntryPoints) returns (r: Setup)
    modifies uc, uc.regspace
    ensures var raised := rec.(address := old(uc.mc.pc));
      var answer := debug(raised, SaveContext(old(uc.mc), old(uc.regspace[..]), base));
      && (DebuggerHandled(answer.status) ==>
            && r == Continued
            && uc.mc == RestoreRegs(old(uc.mc), answer.context)
            && uc.regspace[..] == RestoreFpu(old(uc.regspace[..]), answer.context))
      && (!DebuggerHandled(answer.status) ==>
            && r == Raised(AlignDown(old(uc.mc.sp), 3), block, raised, answer.context)
            && uc.mc == RaiseContext(old(uc.mc), answer.context.pc, r.block, entries)
            && uc.regspace[..] == old(uc.regspace[..]))
  {
    var raised := rec.(address := uc.mc.pc);
    var context := uc.Save(base);
    var answer := debug(raised, context);
    if DebuggerHandled(answer.status) {
      uc.Restore(answer.context);
      return Continued;
    }
    r := RaiseException(uc, raised, answer.context, block, entries);
  }

  /** The second half of setup_exception: the record and CONTEXT stored in the block
      requested below Sp & ~3, and the signal context sent to raise_func_trampoline. */
  method RaiseException(uc: UContext, rec: ExceptionRecord, context: Context, block: Word,
                        entries: EntryPoints) returns (r: Setup)
    modifies uc`mc
    ensures r == Raised(AlignDown(old(uc.mc.sp), 3), block, rec, context)
    ensures uc.mc == RaiseContext(old(uc.mc), context.pc, r.block, entries)
  {
    var stackPtr := AlignDown(uc.mc.sp, 3);
    uc.mc := RaiseContext(uc.mc, context.pc, block, entries);
    r := Raised(stackPtr, block, rec, context);
  }

  /** What segv_handler did with a fault. */
  datatype SegvOutcome = Resolved | SyscallFault | Exception(setup: Setup)

  /** segv_handler: the record for the trap code; nothing more when the page-fault
      service resolved the fault, a return through handle_syscall_fault when the thread
      was in a system call or a guarded access, and setup_exception otherwise. */
  method SegvHandler(uc: UContext, t: Thread, signal: int, insn: int, siAddr: Word, resolved: Word,
                     base: Context, debug: (ExceptionRecord, Context) -> DebugAnswer,
                     block: Word) returns (r: SegvOutcome)
    modifies uc, uc.regspace, t`jmpBuf
    ensures var rec := SegvRecord(GetTrapCode(signal, old(uc.mc.trapNo)), insn, old(uc.mc.errorCode), siAddr, resolved);
      && (r == Resolved <==> rec.None?)
      && (r == SyscallFault <==>
            rec.Some? && (IsInsideSyscall(old(uc.mc.sp), t.kernelStack, t.frame.addr) || old(t.jmpBuf) != 0))
      && (r == Resolved ==> uc.mc == old(uc.mc) && uc.regspace[..] == old(uc.regspace[..]) && t.jmpBuf == old(t.jmpBuf))
      && (r == SyscallFault ==>
            && t.jmpBuf == 0 && uc.regspace[..] == old(uc.regspace[..])
            && (old(t.jmpBuf) != 0 ==> uc.mc == LongjmpContext(old(uc.mc), old(t.jmpBuf), t.entries.longjmp))
            && (old(t.jmpBuf) == 0 ==>
                  uc.mc == SyscallFaultContext(old(uc.mc), t.frame.addr, rec.value.code, t.entries.dispatcherReturn)))
      && (r.Exception? ==> t.jmpBuf == 0)
    ensures var rec := SegvRecord(GetTrapCode(signal, old(uc.mc.trapNo)), insn, old(uc.mc.errorCode), siAddr, resolved);
      r.Exception? ==>
        var raised := rec.value.(address := old(uc.mc.pc));
        var answer := debug(raised, SaveContext(old(uc.mc), old(uc.regspace[..]), base));
        && (DebuggerHandled(answer.status) ==>
              && r.setup == Continued
              && uc.mc == RestoreRegs(old(uc.mc), answer.context)
              && uc.regspace[..] == RestoreFpu(old(uc.regspace[..]), answer.context))
        && (!DebuggerHandled(answer.status) ==>
              && r.setup == Raised(AlignDown(old(uc.mc.sp), 3), block, raised, answer.context)
              && uc.mc == RaiseContext(old(uc.mc), answer.context.pc, block, t.entries)
              && uc.regspace[..] == old(uc.regspace[..]))
  {
    var rec := SegvRecord(GetTrapCode(signal, uc.mc.trapNo), insn, uc.mc.errorCode, siAddr, resolved);
    if rec.None? {
      return Resolved;
    }
    var handled := HandleSyscallFault(uc, t, rec.value);
    if handled {
      return SyscallFault;
    }
    var setup := SetupException(uc, rec.value, base, debug, block, t.entries);
    r := Exception(setup);
  }

  // ---------------------------------------------------------------------------
  // Suspension

  /** usr1_handler: inside a system call the thread's CONTEXT is read from and written back
      to the syscall frame, otherwise from and to the signal context; `wait` is what
      wait_suspend does to the CONTEXT while the thread is suspended. */
  method Usr1Handler(uc: UContext, t: Thread, base: Context, wait: Context -> Context)
    requires t.Valid()
    modifies uc, uc.regspace, t.frame`regs
    ensures t.Valid()
    ensures IsInsideSyscall(old(uc.mc.sp), t.kernelStack, t.frame.addr) ==>
              && t.frame.regs == ApplyContext(old(t.frame.regs), wait(ReadContext(old(t.frame.regs), base.(flags := CONTEXT_FULL))))
              && uc.mc == old(uc.mc) && uc.regspace[..] == old(uc.regspace[..])
    ensures !IsInsideSyscall(old(uc.mc.sp), t.kernelStack, t.frame.addr) ==>
              var c := wait(SaveContext(old(uc.mc), old(uc.regspace[..]), base));
              && uc.mc == RestoreRegs(old(uc.mc), c)
              && uc.regspace[..] == RestoreFpu(old(uc.regspace[..]), c)
              && t.frame.regs == old(t.frame.regs)
  {
    if IsInsideSyscall(uc.mc.sp, t.kernelStack, t.frame.addr) {
      var _, context := t.NtGetContextThread(Current, base.(flags := CONTEXT_FULL));
      var _ := t.NtSetContextThread(Current, wait(context));
    } else {
      var context := uc.Save(base);
      uc.Restore(wait(context));
    }
  }

  /** A suspension inside a system call that leaves the CONTEXT alone leaves the frame's
      registers alone too; the frame only gains the control and FP reload bits. */
  lemma SuspendInsideUnchanged(fs: FrameState, base: Context)
    requires LowBit(fs.pc) == ThumbSet(fs.cpsr)
    ensures ApplyContext(fs, ReadContext(fs, base.(flags := CONTEXT_FULL)))
         == fs.(restoreFlags := fs.restoreFlags | RESTORE_CONTROL | RESTORE_FP)
  {
    GetThenSet(fs, base.(flags := CONTEXT_FULL));
    FullGains(fs.restoreFlags);
  }

  lemma FullGains(rf: Word)
    ensures rf | Gained(CONTEXT_FULL) == rf | RESTORE_CONTROL | RESTORE_FP
  {
  }
}
