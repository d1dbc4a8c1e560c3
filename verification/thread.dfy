// The per-thread state of the signal layer: the chain of syscall frames on the kernel
// stack, the operations that rewrite the current frame so that the next return to user
// mode lands in an ntdll dispatcher, and the user-mode callback push and pop.

module ThreadState {
  import opened Words
  import opened NtDefs
  import opened ArmContext
  import opened SyscallFrame
  import opened SyscallDispatcher

  /** Addresses of the ntdll entry points the unix side sends user mode to, and of the
      helpers it jumps to itself. Bit 0 of each is set for Thumb code. */
  datatype EntryPoints = EntryPoints(
    apcDispatcher: Word,        // KiUserApcDispatcher
    exceptionDispatcher: Word,  // KiUserExceptionDispatcher
    raiseDispatcher: Word,      // KiRaiseUserExceptionDispatcher
    callbackDispatcher: Word,   // KiUserCallbackDispatcher
    ldrInitializeThunk: Word,   // LdrInitializeThunk
    rtlUserThreadStart: Word,   // RtlUserThreadStart
    dispatcherReturn: Word,     // __wine_syscall_dispatcher_return
    longjmp: Word,              // __wine_longjmp
    raiseTrampoline: Word)      // raise_func_trampoline

  /** A struct syscall_frame on the kernel stack. A frame pushed by KeUserModeCallback is
      the head of a struct user_callback_frame, whose ret_ptr, ret_len and status follow. */
  class Frame {
    const addr: Word
    var regs: FrameState
    var prev: Frame?
    var tables: Tables
    const retPtr: Word
    const retLen: Word
    var status: Word

    constructor (addr: Word, regs: FrameState, prev: Frame?, tables: Tables, retPtr: Word, retLen: Word)
      ensures this.addr == addr && this.regs == regs && this.prev == prev && this.tables == tables
      ensures this.retPtr == retPtr && this.retLen == retLen && status == 0
    {
      this.addr := addr;
      this.regs := regs;
      this.prev := prev;
      this.tables := tables;
      this.retPtr := retPtr;
      this.retLen := retLen;
      status := 0;
    }
  }

  /** Who NtSetContextThread / NtGetContextThread act on: the calling thread, or another
      handle, for which the server answers with a status, whether the handle turned out
      to be the calling thread after all, and (for a get) the CONTEXT it filled in. */
  datatype Target = Current | Other(serverStatus: Word, isSelf: bool, fetched: Context)

  /** What call_user_apc_dispatcher leaves below the user stack: struct apc_stack_layout
      at `addr`, holding the APC routine and the CONTEXT to resume afterwards. */
  datatype ApcBlock = ApcBlock(addr: Word, func: Word, context: Context)

  /** KeUserModeCallback either refuses for lack of kernel stack or enters user mode at
      KiUserCallbackDispatcher, with the arguments copied to `argsData` on the user stack. */
  datatype CallbackStart = Overflow(status: Word) | Entered(argsData: Word)

  /** NtCallbackReturn either finds no callback to return from, or stores the result
      pointer and length through the caller's ret_ptr and ret_len and resumes the
      KeUserModeCallback that pushed the frame, which then returns `status`. */
  datatype CallbackEnd =
    | NoCallback(status: Word)
    | Resumed(retPtrSlot: Word, retPtrValue: Word, retLenSlot: Word, retLenValue: Word, status: Word)

  /** What call_init_thunk stores below the user stack: the initial CONTEXT, at `ctxAddr`. */
  datatype InitThunk = InitThunk(ctxAddr: Word, context: Context)

  /** Size of struct apc_stack_layout: func, align, then a CONTEXT. */
  const APC_BLOCK_SIZE: Word := 0x1a8

  /** The CPSR call_init_thunk sets: Thumb state exactly for a Thumb entry point. */
  function InitialCpsr(pc: Word): (cpsr: Word)
  {
    if pc & 1 != 0 then THUMB else 0
  }

  /** The initial CPSR is in Thumb state exactly for a Thumb entry point, with every
      other bit clear. */
  lemma InitialCpsrBits(pc: Word)
    ensures ThumbSet(InitialCpsr(pc)) == LowBit(pc)
    ensures InitialCpsr(pc) & !THUMB == 0
  {
  }

  class Thread {
    /** arm_thread_data()->syscall_frame: the frame of the innermost system call. */
    var frame: Frame
    /** The frames reachable through prev_frame, innermost first. */
    ghost var chain: seq<Frame>
    /** ntdll_get_thread_data()->jmp_buf: the handler of a guarded kernel access, 0 when none. */
    var jmpBuf: Word
    /** ntdll_get_thread_data()->kernel_stack: the lowest address of the kernel stack. */
    const kernelStack: Word
    /** min_kernel_stack: the stack a callback must leave free below its frame. */
    const minKernelStack: Word
    const entries: EntryPoints

    /** The frame chain is the current frame followed by its prev_frame links, and ends
        in a frame without one. */
    ghost predicate Valid()
      reads this`frame, this`chain, chain`prev
    {
      && |chain| >= 1 && chain[0] == frame
      && (forall i :: 0 <= i < |chain| - 1 ==> chain[i].prev == chain[i + 1])
      && chain[|chain| - 1].prev == null
    }

    /** A thread whose only frame is `f`, as signal_init_process and signal_start_thread
        set it up at the top of the kernel stack. */
    constructor (f: Frame, kernelStack: Word, minKernelStack: Word, entries: EntryPoints)
      requires f.prev == null
      ensures Valid() && frame == f && chain == [f] && jmpBuf == 0
      ensures this.kernelStack == kernelStack && this.minKernelStack == minKernelStack && this.entries == entries
    {
      frame := f;
      chain := [f];
      jmpBuf := 0;
      this.kernelStack := kernelStack;
      this.minKernelStack := minKernelStack;
      this.entries := entries;
    }

    // -------------------------------------------------------------------------
    // NtSetContextThread / NtGetContextThread / signal_set_full_context

    /** NtSetContextThread: for another thread the server's answer, unless the handle is
        the calling thread; for the calling thread the requested groups go into the
        current frame. */
    method NtSetContextThread(target: Target, c: Context) returns (status: Word)
      requires Valid()
      modifies frame`regs
      ensures Valid()
      ensures target.Other? && (target.serverStatus != 0 || !target.isSelf) ==>
                status == target.serverStatus && frame.regs == old(frame.regs)
      ensures target.Current? || (target.serverStatus == 0 && target.isSelf) ==>
                status == STATUS_SUCCESS && frame.regs == ApplyContext(old(frame.regs), c)
    {
      if target.Other? && (target.serverStatus != 0 || !target.isSelf) {
        return target.serverStatus;
      }
      frame.regs := ApplyContext(frame.regs, c);
      status := STATUS_SUCCESS;
    }

    /** NtGetContextThread: for another thread the server's CONTEXT, unless the handle
        is the calling thread; for the calling thread the requested groups read from the
        current frame. The reply is taken to land in the caller's CONTEXT, which is what
        the call means to do (OtherContextAsWritten is what its argument does). */
    method NtGetContextThread(target: Target, c: Context) returns (status: Word, result: Context)
      requires Valid()
      ensures target.Other? && (target.serverStatus != 0 || !target.isSelf) ==>
                status == target.serverStatus && result == target.fetched
      ensures target.Current? || (target.serverStatus == 0 && target.isSelf) ==>
                status == STATUS_SUCCESS && result == ReadContext(frame.regs, c)
    {
      if target.Other? && (target.serverStatus != 0 || !target.isSelf) {
        return target.serverStatus, target.fetched;
      }
      return STATUS_SUCCESS, ReadContext(frame.regs, c);
    }

    /** signal_set_full_context: NtSetContextThread on the calling thread, and when the
        whole integer group was given, r0..r3 reloaded on the way out as well. */
    method SignalSetFullContext(c: Context) returns (status: Word)
      requires Valid()
      modifies frame`regs
      ensures Valid()
      ensures status == STATUS_SUCCESS
      ensures frame.regs == FullContext(old(frame.regs), c)
    {
      status := NtSetContextThread(Current, c);
      if status == STATUS_SUCCESS && c.flags & CONTEXT_INTEGER == CONTEXT_INTEGER {
        frame.regs := frame.regs.(restoreFlags := frame.regs.restoreFlags | CONTEXT_INTEGER);
      }
    }

    // -------------------------------------------------------------------------
    // __wine_syscall_dispatcher

    /** The dispatcher from the system call instruction up to the service: the caller's
        registers saved into the frame, the id in ip decoded, and either the service
        entered with its arguments spilled below the frame, or, for an id beyond its
        table's limit, a return to the caller with STATUS_INVALID_PARAMETER. `caller` holds
        the words on the caller's stack: the r0..r3 it pushed, then its stack arguments;
        `tablesAddr` is the address of the service tables the frame points at. */
    method SyscallDispatch(cpu: Cpu, caller: seq<Word>, tablesAddr: Word) returns (e: Entry)
      requires Valid() && TablesValid(frame.tables)
      requires InRange(frame.tables, IdOf(cpu)) ==> ArgBytesOf(frame.tables, IdOf(cpu)) / 4 <= |caller|
      modifies frame`regs
      ensures Valid()
      ensures frame.regs == EnterFrame(old(frame.regs), cpu)
      ensures !InRange(frame.tables, IdOf(cpu)) ==>
                e == Invalid(ReturnPath(frame.regs, InvalidLive(cpu, frame.addr, tablesAddr, frame.tables)))
      ensures InRange(frame.tables, IdOf(cpu)) ==>
                var n := ArgBytesOf(frame.tables, IdOf(cpu));
                e == Call(ServiceOf(frame.tables, IdOf(cpu)), caller[..4],
                          SpillBase(frame.addr, SpillSize(frame.tables, IdOf(cpu))) + 16, caller[4..n / 4])
    {
      frame.regs := EnterFrame(frame.regs, cpu);
      var id := IdOf(cpu);
      if !InRange(frame.tables, id) {
        return Invalid(ReturnPath(frame.regs, InvalidLive(cpu, frame.addr, tablesAddr, frame.tables)));
      }
      var n := ArgBytesOf(frame.tables, id);
      var spill := SpillArguments(caller, n / 4);
      var words := spill[..];
      assert words[..4] == caller[..4] && words[4..] == caller[4..n / 4];
      e := Call(ServiceOf(frame.tables, id), words[..4], SpillBase(frame.addr, SpillSize(frame.tables, id)) + 16, words[4..]);
    }

    // -------------------------------------------------------------------------
    // Redirecting the return to user mode

    /** call_user_apc_dispatcher: builds an apc_stack_layout below the stack of `c` (or of
        the frame when there is none), holding the CONTEXT to resume, and points the frame
        at KiUserApcDispatcher(&context, arg1, arg2, arg3). */
    method CallUserApcDispatcher(c: Option<Context>, arg1: Word, arg2: Word, arg3: Word, func: Word, status: Word)
      returns (r: Word, block: ApcBlock)
      requires Valid()
      modifies frame`regs
      ensures Valid()
      ensures r == status
      ensures block == ApcBlockOf(old(frame.regs), c, func, status)
      ensures frame.regs == ApcFrame(old(frame.regs), c, block.addr, arg1, arg2, arg3, entries.apcDispatcher)
    {
      var sp := if c.Some? then c.value.sp else frame.regs.sp;
      var stack := ApcStack(sp);
      var saved: Context;
      if c.Some? {
        saved := c.value;
        var _ := NtSetContextThread(Current, saved);
      } else {
        var _, got := NtGetContextThread(Current, EmptyContext.(flags := CONTEXT_FULL));
        saved := got.(r := got.r[0 := status]);
      }
      block := ApcBlock(stack, func, saved);
      EnterApcDispatcher(stack, arg1, arg2, arg3);
      r := status;
    }

    /** The last steps of call_user_apc_dispatcher: the frame returns to
        KiUserApcDispatcher(&context, arg1, arg2, arg3) on the stack at `stack`. */
    method EnterApcDispatcher(stack: Word, arg1: Word, arg2: Word, arg3: Word)
      requires Valid()
      modifies frame`regs
      ensures Valid()
      ensures frame.regs == ApcEntry(old(frame.regs), stack, arg1, arg2, arg3, entries.apcDispatcher)
    {
      var fs := frame.regs;
      frame.regs := fs.(sp := stack, pc := entries.apcDispatcher,
                        r := [stack + 8, arg1, arg2, arg3] + fs.r[4..],
                        restoreFlags := fs.restoreFlags | CONTEXT_CONTROL | CONTEXT_INTEGER);
    }

    /** call_raise_user_exception_dispatcher: the frame returns to
        KiRaiseUserExceptionDispatcher, everything else as it is. */
    method CallRaiseUserExceptionDispatcher()
      requires Valid()
      modifies frame`regs
      ensures Valid()
      ensures frame.regs == old(frame.regs).(pc := entries.raiseDispatcher)
    {
      frame.regs := frame.regs.(pc := entries.raiseDispatcher);
    }

    /** call_user_exception_dispatcher: the CONTEXT's requested groups go into the frame,
        which then returns to KiUserExceptionDispatcher(rec, context) on the frame's own
        Sp and Lr. */
    method CallUserExceptionDispatcher(rec: Word, ctxAddr: Word, c: Context) returns (status: Word)
      requires Valid()
      modifies frame`regs
      ensures Valid()
      ensures status == STATUS_SUCCESS
      ensures frame.regs == ExceptionFrame(old(frame.regs), c, rec, ctxAddr, entries.exceptionDispatcher)
    {
      var lr := frame.regs.lr;
      var sp := frame.regs.sp;
      status := NtSetContextThread(Current, c);
      EnterExceptionDispatcher(rec, ctxAddr, sp, lr);
    }

    /** The last steps of call_user_exception_dispatcher: the frame returns to
        KiUserExceptionDispatcher(rec, context) on the stack `sp` with return address `lr`. */
    method EnterExceptionDispatcher(rec: Word, ctxAddr: Word, sp: Word, lr: Word)
      requires Valid()
      modifies frame`regs
      ensures Valid()
      ensures frame.regs == ExceptionEntry(old(frame.regs), rec, ctxAddr, sp, lr, entries.exceptionDispatcher)
    {
      var fs := frame.regs;
      frame.regs := fs.(r := fs.r[0 := rec][1 := ctxAddr], pc := entries.exceptionDispatcher, lr := lr, sp := sp,
                        restoreFlags := fs.restoreFlags | CONTEXT_INTEGER | CONTEXT_CONTROL);
    }

    // -------------------------------------------------------------------------
    // User-mode callbacks

    /** KeUserModeCallback up to the jump to user mode: refuses when the callback frame at
        `frameAddr` would leave less than min_kernel_stack; otherwise copies the arguments
        below the user stack, pushes a callback frame that enters
        KiUserCallbackDispatcher(id, args, len) with r4..r12 and lr zero, and returns
        through it with status 0. */
    method KeUserModeCallback(id: Word, args: Word, len: Word, retPtr: Word, retLen: Word,
                              frameAddr: Word) returns (r: CallbackStart)
      requires Valid()
      modifies this`frame, this`chain
      ensures Valid()
      ensures kernelStack + minKernelStack > frameAddr ==>
                r == Overflow(STATUS_STACK_OVERFLOW) && frame == old(frame) && chain == old(chain)
      ensures kernelStack + minKernelStack <= frameAddr ==>
                && fresh(frame) && chain == [frame] + old(chain) && frame.prev == old(frame)
                && frame.addr == frameAddr && frame.retPtr == retPtr && frame.retLen == retLen
                && frame.tables == old(frame.tables)
                && frame.regs == CallbackFrame(id, args, len, ArgsData(old(frame.regs).sp, len), entries.callbackDispatcher)
                && r == Entered(ArgsData(old(frame.regs).sp, len))
    {
      if kernelStack + minKernelStack > frameAddr {
        return Overflow(STATUS_STACK_OVERFLOW);
      }
      var argsData := ArgsData(frame.regs.sp, len);
      var regs := CallbackFrame(id, args, len, argsData, entries.callbackDispatcher);
      var f := new Frame(frameAddr, regs, frame, frame.tables, retPtr, retLen);
      frame := f;
      chain := [f] + chain;
      r := Entered(argsData);
    }

    /** NtCallbackReturn: without a previous frame there is no callback to return from;
        otherwise the result is stored through the callback's ret_ptr and ret_len, its
        status recorded, and its frame popped. */
    method NtCallbackReturn(retPtr: Word, retLen: Word, status: Word) returns (r: CallbackEnd)
      requires Valid()
      modifies this`frame, this`chain, frame`status
      ensures Valid()
      ensures old(frame.prev) == null ==>
                r == NoCallback(STATUS_NO_CALLBACK_ACTIVE) && frame == old(frame) && chain == old(chain)
      ensures old(frame.prev) != null ==>
                && r == Resumed(old(frame.retPtr), retPtr, old(frame.retLen), retLen, status)
                && frame == old(frame.prev) && chain == old(chain)[1..] && old(frame).status == status
    {
      if frame.prev == null {
        return NoCallback(STATUS_NO_CALLBACK_ACTIVE);
      }
      var top := frame;
      top.status := status;
      frame := top.prev;
      chain := chain[1..];
      r := Resumed(top.retPtr, retPtr, top.retLen, retLen, status);
    }

    /** A callback that returns through NtCallbackReturn pops exactly the frame it pushed:
        the thread is back on the frame it started from, and KeUserModeCallback returns the
        status given to NtCallbackReturn. */
    method CallbackRoundTrip(id: Word, args: Word, len: Word, retPtr: Word, retLen: Word,
                             frameAddr: Word, result: Word, resultLen: Word, status: Word)
      returns (r: Word)
      requires Valid()
      modifies this`frame, this`chain
      ensures Valid() && frame == old(frame) && chain == old(chain)
      ensures kernelStack + minKernelStack > frameAddr ==> r == STATUS_STACK_OVERFLOW
      ensures kernelStack + minKernelStack <= frameAddr ==> r == status
    {
      var start := KeUserModeCallback(id, args, len, retPtr, retLen, frameAddr);
      if start.Overflow? {
        return start.status;
      }
      var end := NtCallbackReturn(result, resultLen, status);
      r := end.status;
    }

    // -------------------------------------------------------------------------
    // Thread start

    /** call_init_thunk: the initial CONTEXT (RtlUserThreadStart(entry, arg) on the TEB's
        stack), possibly changed while the thread waited suspended, stored below that stack
        and set into the frame, which then enters LdrInitializeThunk(&context) as the only
        frame of the thread. `resumed` is the CONTEXT as wait_suspend leaves it. */
    method CallInitThunk(entry: Word, arg: Word, suspend: bool, resumed: Context, stackBase: Word,
                         serviceTables: Tables) returns (r: InitThunk)
      requires Valid()
      modifies this`chain, frame`regs, frame`prev, frame`tables
      ensures Valid() && chain == [frame] && frame.prev == null
      ensures frame.tables == serviceTables
      ensures r.context == (if suspend then resumed else InitialContext(entry, arg, stackBase, entries.rtlUserThreadStart)).(flags := CONTEXT_FULL)
      ensures r.ctxAddr == ContextBelow(r.context.sp)
      ensures frame.regs == InitFrame(old(frame.regs), r.context, r.ctxAddr, entries.ldrInitializeThunk)
    {
      var context := if suspend then resumed else InitialContext(entry, arg, stackBase, entries.rtlUserThreadStart);
      var ctxAddr := ContextBelow(context.sp);
      var ctx := context.(flags := CONTEXT_FULL);
      var _ := NtSetContextThread(Current, ctx);
      EnterLdrInitializeThunk(ctxAddr, serviceTables);
      r := InitThunk(ctxAddr, ctx);
    }

    /** The last steps of call_init_thunk: the frame returns to LdrInitializeThunk(ctx)
        on the stack at `ctxAddr`, reloading r0..r3, as the only frame of the thread. */
    method EnterLdrInitializeThunk(ctxAddr: Word, serviceTables: Tables)
      requires Valid()
      modifies this`chain, frame`regs, frame`prev, frame`tables
      ensures Valid() && chain == [frame] && frame.prev == null && frame.tables == serviceTables
      ensures frame.regs == LdrEntry(old(frame.regs), ctxAddr, entries.ldrInitializeThunk)
    {
      var fs := frame.regs;
      frame.regs := fs.(sp := ctxAddr, pc := entries.ldrInitializeThunk, r := fs.r[0 := ctxAddr],
                        restoreFlags := fs.restoreFlags | CONTEXT_INTEGER);
      frame.prev := null;
      frame.tables := serviceTables;
      chain := [frame];
    }
  }

  // ---------------------------------------------------------------------------
  // The frames the operations leave, as functions of the old frame

  /** NtGetContextThread on another thread as written: the CONTEXT the server fills in
      is stored from the address of the local pointer `context`, not into the caller's
      CONTEXT. That write runs past the pointer over the rest of the stack frame, which
      is not modelled; this function is the best case, where the caller gets its CONTEXT
      back as it passed it. */
  function OtherContextAsWritten(target: Target, c: Context): (r: (Word, Context))
    requires target.Other? && (target.serverStatus != 0 || !target.isSelf)
  {
    (target.serverStatus, c)
  }

  /** As written, a successful call on another thread returns the server's status but
      never the server's CONTEXT, unless the caller already held it. */
  lemma AsWrittenIgnoresReply(target: Target, c: Context)
    requires target.Other? && target.serverStatus == STATUS_SUCCESS && !target.isSelf
    ensures OtherContextAsWritten(target, c).0 == STATUS_SUCCESS
    ensures OtherContextAsWritten(target, c).1 == target.fetched <==> c == target.fetched
  {
  }

  /** The frame after signal_set_full_context. */
  function FullContext(fs: FrameState, c: Context): (t: FrameState)
  {
    var applied := ApplyContext(fs, c);
    if c.flags & CONTEXT_INTEGER == CONTEXT_INTEGER
    then applied.(restoreFlags := applied.restoreFlags | CONTEXT_INTEGER)
    else applied
  }

  /** The apc_stack_layout address: below the 16-byte aligned stack pointer. */
  function ApcStack(sp: Word): (a: Word)
  {
    AlignDown(sp, 15) - APC_BLOCK_SIZE
  }

  /** The APC block call_user_apc_dispatcher writes. */
  function ApcBlockOf(fs: FrameState, c: Option<Context>, func: Word, status: Word): (b: ApcBlock)
  {
    match c
    case Some(ctx) => ApcBlock(ApcStack(ctx.sp), func, ctx)
    case None =>
      var got := ReadContext(fs, EmptyContext.(flags := CONTEXT_FULL));
      ApcBlock(ApcStack(fs.sp), func, got.(r := got.r[0 := status]))
  }

  /** The frame call_user_apc_dispatcher leaves. */
  function ApcFrame(fs: FrameState, c: Option<Context>, stack: Word, a1: Word, a2: Word, a3: Word,
                    dispatcher: Word): (t: FrameState)
  {
    ApcEntry(if c.Some? then ApplyContext(fs, c.value) else fs, stack, a1, a2, a3, dispatcher)
  }

  /** A frame sent to KiUserApcDispatcher(stack + 8, a1, a2, a3) on the stack at `stack`. */
  function ApcEntry(fs: FrameState, stack: Word, a1: Word, a2: Word, a3: Word, dispatcher: Word): (t: FrameState)
  {
    fs.(sp := stack, pc := dispatcher, r := [stack + 8, a1, a2, a3] + fs.r[4..],
        restoreFlags := fs.restoreFlags | CONTEXT_CONTROL | CONTEXT_INTEGER)
  }

  /** The frame call_user_exception_dispatcher leaves. */
  function ExceptionFrame(fs: FrameState, c: Context, rec: Word, ctxAddr: Word, dispatcher: Word): (t: FrameState)
  {
    ExceptionEntry(ApplyContext(fs, c), rec, ctxAddr, fs.sp, fs.lr, dispatcher)
  }

  /** A frame sent to KiUserExceptionDispatcher(rec, ctxAddr) on the stack `sp`. */
  function ExceptionEntry(fs: FrameState, rec: Word, ctxAddr: Word, sp: Word, lr: Word, dispatcher: Word): (t: FrameState)
  {
    fs.(r := fs.r[0 := rec][1 := ctxAddr], pc := dispatcher, lr := lr, sp := sp,
        restoreFlags := fs.restoreFlags | CONTEXT_INTEGER | CONTEXT_CONTROL)
  }

  /** Where KeUserModeCallback copies the arguments: `len` bytes below the user stack,
      rounded down to 16 bytes. */
  function ArgsData(sp: Word, len: Word): (a: Word)
  {
    AlignDown(sp - len, 15)
  }

  /** The zero-initialised callback frame KeUserModeCallback pushes. */
  function CallbackFrame(id: Word, args: Word, len: Word, argsData: Word, dispatcher: Word): (t: FrameState)
  {
    ZeroFrame.(r := ZeroGp[0 := id][1 := args][2 := len], sp := argsData, pc := dispatcher,
               restoreFlags := CONTEXT_INTEGER)
  }

  /** The CONTEXT call_init_thunk starts a thread with: all groups, RtlUserThreadStart(entry,
      arg) on the stack at `stackBase`, Thumb state from bit 0 of the entry point. */
  function InitialContext(entry: Word, arg: Word, stackBase: Word, start: Word): (c: Context)
  {
    EmptyContext.(flags := CONTEXT_ALL, r := ZeroGp[0 := entry][1 := arg], sp := stackBase, pc := start,
                  cpsr := InitialCpsr(start))
  }

  /** Where call_init_thunk stores the CONTEXT: one CONTEXT below the 16-byte aligned stack. */
  function ContextBelow(sp: Word): (a: Word)
  {
    AlignDown(sp, 15) - CONTEXT_SIZE
  }

  /** The frame call_init_thunk leaves. */
  function InitFrame(fs: FrameState, ctx: Context, ctxAddr: Word, ldr: Word): (t: FrameState)
  {
    LdrEntry(ApplyContext(fs, ctx), ctxAddr, ldr)
  }

  /** A frame sent to LdrInitializeThunk(ctxAddr) on the stack at `ctxAddr`. */
  function LdrEntry(fs: FrameState, ctxAddr: Word, ldr: Word): (t: FrameState)
  {
    fs.(sp := ctxAddr, pc := ldr, r := fs.r[0 := ctxAddr], restoreFlags := fs.restoreFlags | CONTEXT_INTEGER)
  }

  // ---------------------------------------------------------------------------
  // Where the return path lands after each redirection

  lemma IntegerReloaded(rf: Word)
    ensures Reloads(rf | CONTEXT_INTEGER, RESTORE_INTEGER)
    ensures Reloads(rf | CONTEXT_CONTROL | CONTEXT_INTEGER, RESTORE_INTEGER)
    ensures Reloads(rf | CONTEXT_INTEGER | CONTEXT_CONTROL, RESTORE_INTEGER)
  {
  }

  /** A callback frame enters KiUserCallbackDispatcher(id, args, len) on the copied
      arguments, with r3..r12 and lr zero whatever the live registers held, and the live
      VFP registers. */
  lemma CallbackEntersDispatcher(id: Word, args: Word, len: Word, argsData: Word, dispatcher: Word, live: Cpu)
    ensures var out := ReturnPath(CallbackFrame(id, args, len, argsData, dispatcher), live);
      && out.r[0] == id && out.r[1] == args && out.r[2] == len
      && (forall k :: 3 <= k < 13 ==> out.r[k] == 0)
      && out.sp == argsData && out.pc == dispatcher && out.lr == 0
      && out.d == live.d && out.fpscr == live.fpscr
  {
    var fs := CallbackFrame(id, args, len, argsData, dispatcher);
    var out := ReturnPath(fs, live);
    assert Reloads(fs.restoreFlags, RESTORE_INTEGER) && !Reloads(fs.restoreFlags, RESTORE_FP);
    ReturnPathRegisters(fs, live);
    assert out.r == out.r[..4] + out.r[4..];
    assert fs.r == fs.r[..4] + fs.r[4..];
    assert out.d == out.d[..16] + out.d[16..];
    assert live.d == live.d[..16] + live.d[16..];
  }

  /** The arguments are copied to a 16-byte aligned address at most 15 bytes below
      `sp - len`. */
  lemma ArgsDataAligned(sp: Word, len: Word)
    ensures ArgsData(sp, len) & 15 == 0
    ensures ArgsData(sp, len) + ((sp - len) & 15) == sp - len
  {
  }

  /** After call_user_apc_dispatcher the return path enters
      KiUserApcDispatcher(&block.context, arg1, arg2, arg3) on the APC block, with r4..r12
      and lr those of the CONTEXT that was set (or of the frame without one). */
  lemma ApcEntersDispatcher(fs: FrameState, c: Option<Context>, stack: Word, a1: Word, a2: Word, a3: Word,
                            dispatcher: Word, live: Cpu)
    ensures var out := ReturnPath(ApcFrame(fs, c, stack, a1, a2, a3, dispatcher), live);
      var base := if c.Some? then ApplyContext(fs, c.value) else fs;
      && out.r[..4] == [stack + 8, a1, a2, a3] && out.r[4..] == base.r[4..]
      && out.sp == stack && out.pc == dispatcher && out.lr == base.lr
  {
    var base := if c.Some? then ApplyContext(fs, c.value) else fs;
    var t := ApcFrame(fs, c, stack, a1, a2, a3, dispatcher);
    IntegerReloaded(base.restoreFlags);
    ReturnPathRegisters(t, live);
    assert t.r[..4] == [stack + 8, a1, a2, a3];
    assert t.r[4..] == base.r[4..];
  }

  /** The APC block lies just below the 16-byte aligned stack pointer, and the CONTEXT it
      holds, 8 bytes in, is 16-byte aligned. */
  lemma ApcStackAligned(sp: Word)
    ensures ApcStack(sp) + APC_BLOCK_SIZE == AlignDown(sp, 15)
    ensures (ApcStack(sp) + 8) & 15 == 0
  {
  }

  /** After call_user_exception_dispatcher the return path enters
      KiUserExceptionDispatcher(rec, context) on the Sp and Lr the frame had before,
      whatever the CONTEXT said about them. */
  lemma ExceptionEntersDispatcher(fs: FrameState, c: Context, rec: Word, ctxAddr: Word, dispatcher: Word, live: Cpu)
    ensures var out := ReturnPath(ExceptionFrame(fs, c, rec, ctxAddr, dispatcher), live);
      && out.r[0] == rec && out.r[1] == ctxAddr
      && out.sp == fs.sp && out.lr == fs.lr && out.pc == dispatcher
  {
    var t := ExceptionFrame(fs, c, rec, ctxAddr, dispatcher);
    IntegerReloaded(ApplyContext(fs, c).restoreFlags);
    ReturnPathRegisters(t, live);
    var out := ReturnPath(t, live);
    assert out.r[0] == out.r[..4][0] && out.r[1] == out.r[..4][1];
  }

  /** signal_set_full_context with the whole integer group: the thread resumes with
      R0..R12 of the CONTEXT. */
  lemma FullContextReloads(fs: FrameState, c: Context, live: Cpu)
    requires c.flags & CONTEXT_INTEGER == CONTEXT_INTEGER
    ensures ReturnPath(FullContext(fs, c), live).r == c.r
  {
    var t := FullContext(fs, c);
    WantsInteger(c.flags);
    ApplyContextGroups(fs, c);
    IntegerReloaded(ApplyContext(fs, c).restoreFlags);
    ReturnPathRegisters(t, live);
    var out := ReturnPath(t, live);
    assert out.r == out.r[..4] + out.r[4..];
    assert c.r == c.r[..4] + c.r[4..];
  }

  lemma WantsInteger(flags: Word)
    requires flags & CONTEXT_INTEGER == CONTEXT_INTEGER
    ensures Wants(flags, CONTEXT_INTEGER)
  {
  }

  /** NtSetContextThread alone, on a frame that was not asked to reload r0..r3, leaves
      r0..r3 to the live registers (r0 carrying the system call's status), even when
      the CONTEXT holds the integer group. */
  lemma SetContextKeepsStatus(fs: FrameState, c: Context, live: Cpu)
    requires !Reloads(fs.restoreFlags, RESTORE_INTEGER)
    ensures ReturnPath(ApplyContext(fs, c), live).r[..4] == live.r[..4]
  {
    ApplyContextRestoreFlags(fs, c);
    ReturnPathRegisters(ApplyContext(fs, c), live);
  }

  /** After call_init_thunk the return path enters LdrInitializeThunk(ctx) on the stored
      CONTEXT, with r1..r12, lr, fpscr and d0..d15 from that CONTEXT. */
  lemma InitThunkEntersLdr(fs: FrameState, ctx: Context, ctxAddr: Word, ldr: Word, live: Cpu)
    requires ctx.flags == CONTEXT_FULL
    ensures var out := ReturnPath(InitFrame(fs, ctx, ctxAddr, ldr), live);
      && out.r[0] == ctxAddr && out.r[1..] == ctx.r[1..]
      && out.sp == ctxAddr && out.pc == ldr && out.lr == ctx.lr
      && out.fpscr == ctx.fpscr && out.d[..16] == ctx.d[..16]
  {
    var applied := ApplyContext(fs, ctx);
    var t := InitFrame(fs, ctx, ctxAddr, ldr);
    assert Wants(CONTEXT_FULL, CONTEXT_INTEGER) && Wants(CONTEXT_FULL, CONTEXT_CONTROL)
      && Wants(CONTEXT_FULL, CONTEXT_FLOATING_POINT);
    ApplyContextGroups(fs, ctx);
    ApplyContextRestoreFlags(fs, ctx);
    IntegerReloaded(applied.restoreFlags);
    ReturnPathRegisters(t, live);
    var out := ReturnPath(t, live);
    assert out.r == out.r[..4] + out.r[4..];
    assert out.r[1..] == t.r[1..];
  }

  /** The initial CONTEXT is stored 16-byte aligned, just below the aligned stack. */
  lemma ContextBelowAligned(sp: Word)
    ensures ContextBelow(sp) & 15 == 0
    ensures ContextBelow(sp) + CONTEXT_SIZE == AlignDown(sp, 15)
  {
  }
}
