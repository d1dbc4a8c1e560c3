// unwind_builtin_dll: one step of unwinding through a function of a builtin module, with
// the answers of libunwind (set-up, procedure info, the step and the registers it
// recovers) as inputs, and the leaf-function and trampoline decisions modelled.

module Unwind {
  import opened Words
  import opened NtDefs
  import opened ArmContext

  const UNW_ESUCCESS: int := 0
  const UNW_ENOINFO: int := 10

  /** The fields of DISPATCHER_CONTEXT the unwinder reads or writes. */
  datatype DispatcherContext = DispatcherContext(
    controlPcIsUnwound: bool,
    languageHandler: Word,
    handlerData: Word,
    establisherFrame: Word)

  /** unw_proc_info_t: the function's extent, its personality routine and its LSDA. */
  datatype ProcInfo = ProcInfo(startIp: Word, endIp: Word, handler: Word, lsda: Word)

  /** The registers unw_get_reg reads back after the step: r0..r12, sp, lr and the ip. */
  datatype Caller = Caller(r: GpRegs, sp: Word, lr: Word, pc: Word)

  /** libunwind's answers: unw_init_local's result, unw_get_proc_info's result and the
      info it filled in, unw_step's result, and the caller's registers. */
  datatype Libunwind = Libunwind(initRc: int, infoRc: int, info: ProcInfo, stepRc: int, caller: Caller)

  /** The status returned, with the DISPATCHER_CONTEXT and CONTEXT as they are left. */
  datatype Unwound = Unwound(status: Word, dispatch: DispatcherContext, context: Context)

  /** The address looked up: Pc, or Pc - 2 when it is a return address already unwound to
      the call, so that it falls inside the calling instruction's function. */
  function UnwindIp(dispatch: DispatcherContext, context: Context): (ip: Word)
  {
    context.pc - (if dispatch.controlPcIsUnwound then 2 else 0)
  }

  /** Whether the looked-up address lies outside the function libunwind found. */
  predicate OutsideInfo(u: Libunwind, ip: Word)
  {
    ip < u.info.startIp || ip > u.info.endIp
  }

  /** Whether the function found is raise_func_trampoline (Thumb bit ignored). */
  predicate IsTrampoline(startIp: Word, trampoline: Word)
  {
    startIp & !1 == trampoline & !1
  }

  /** unw_get_proc_info failed for another reason than missing information. */
  predicate InfoFailed(u: Libunwind)
  {
    u.infoRc != UNW_ESUCCESS && u.infoRc != -UNW_ENOINFO
  }

  /** unwind_builtin_dll. `lib` is None when the module is built without libunwind;
      `load` gives the word stored at an address; `trampoline` is raise_func_trampoline. */
  function UnwindBuiltinDll(dispatch: DispatcherContext, context: Context, lib: Option<Libunwind>,
                            load: Word -> Word, trampoline: Word): (r: Unwound)
  {
    match lib
    case None => Unwound(STATUS_INVALID_DISPOSITION, dispatch, context)
    case Some(u) =>
      if u.initRc != UNW_ESUCCESS || InfoFailed(u) then Unwound(STATUS_INVALID_DISPOSITION, dispatch, context)
      else if u.infoRc == -UNW_ENOINFO || OutsideInfo(u, UnwindIp(dispatch, context)) then LeafUnwind(dispatch, context)
      else if u.stepRc < 0 then Unwound(STATUS_INVALID_DISPOSITION, dispatch, context)
      else StepUnwind(dispatch, context, u, load, trampoline)
  }

  /** The fallback for code without unwind information: a leaf function, whose return
      address is still in Lr. */
  function LeafUnwind(dispatch: DispatcherContext, context: Context): (r: Unwound)
  {
    Unwound(if context.pc != context.lr then STATUS_SUCCESS else STATUS_INVALID_DISPOSITION,
            dispatch.(languageHandler := 0, establisherFrame := context.sp),
            context.(pc := context.lr, flags := MarkUnwound(context.flags)))
  }

  /** A step libunwind made: the caller's registers, the personality routine and LSDA,
      and, out of raise_func_trampoline, the original Lr it saved at the bottom of its stack. */
  function StepUnwind(dispatch: DispatcherContext, context: Context, u: Libunwind, load: Word -> Word,
                      trampoline: Word): (r: Unwound)
  {
    var frame := context.sp;
    Unwound(STATUS_SUCCESS,
            dispatch.(languageHandler := u.info.handler, handlerData := u.info.lsda, establisherFrame := frame),
            context.(r := u.caller.r, sp := u.caller.sp, pc := u.caller.pc,
                     lr := if IsTrampoline(u.info.startIp, trampoline) then load(frame) else u.caller.lr,
                     flags := MarkUnwound(context.flags)))
  }

  /** Without libunwind, when libunwind cannot start, or when it fails to look up the
      function, nothing is unwound: INVALID_DISPOSITION with both contexts untouched. */
  lemma UnwindFails(dispatch: DispatcherContext, context: Context, lib: Option<Libunwind>, load: Word -> Word, trampoline: Word)
    requires lib.None? || lib.value.initRc != UNW_ESUCCESS || InfoFailed(lib.value)
             || (lib.value.infoRc == UNW_ESUCCESS && !OutsideInfo(lib.value, UnwindIp(dispatch, context))
                 && lib.value.stepRc < 0)
    ensures UnwindBuiltinDll(dispatch, context, lib, load, trampoline)
         == Unwound(STATUS_INVALID_DISPOSITION, dispatch, context)
  {
  }

  /** Without information covering the address, the function is taken for a leaf: no
      handler, the frame at Sp, execution continuing at Lr, and success exactly when that
      moves Pc (a Pc equal to Lr would unwind to itself forever). */
  lemma UnwindLeaf(dispatch: DispatcherContext, context: Context, u: Libunwind, load: Word -> Word, trampoline: Word)
    requires u.initRc == UNW_ESUCCESS && !InfoFailed(u)
    requires u.infoRc == -UNW_ENOINFO || OutsideInfo(u, UnwindIp(dispatch, context))
    ensures var r := UnwindBuiltinDll(dispatch, context, Some(u), load, trampoline);
      && r.dispatch.languageHandler == 0 && r.dispatch.establisherFrame == context.sp
      && r.dispatch.handlerData == dispatch.handlerData
      && r.context.pc == context.lr && r.context.lr == context.lr
      && r.context.r == context.r && r.context.sp == context.sp
      && (r.status == STATUS_SUCCESS <==> r.context.pc != context.pc)
      && (r.status != STATUS_SUCCESS ==> r.status == STATUS_INVALID_DISPOSITION)
      && Marked(r.context.flags, context.flags)
  {
  }

  /** After a step the CONTEXT holds the caller's registers, and Lr is the original one
      saved on the stack exactly when the function unwound was raise_func_trampoline. */
  lemma UnwindStep(dispatch: DispatcherContext, context: Context, u: Libunwind, load: Word -> Word, trampoline: Word)
    requires u.initRc == UNW_ESUCCESS && u.infoRc == UNW_ESUCCESS
    requires !OutsideInfo(u, UnwindIp(dispatch, context)) && u.stepRc >= 0
    ensures var r := UnwindBuiltinDll(dispatch, context, Some(u), load, trampoline);
      && r.status == STATUS_SUCCESS
      && r.dispatch == dispatch.(languageHandler := u.info.handler, handlerData := u.info.lsda,
                                 establisherFrame := context.sp)
      && r.context.r == u.caller.r && r.context.sp == u.caller.sp && r.context.pc == u.caller.pc
      && (IsTrampoline(u.info.startIp, trampoline) ==> r.context.lr == load(context.sp))
      && (!IsTrampoline(u.info.startIp, trampoline) ==> r.context.lr == u.caller.lr)
      && Marked(r.context.flags, context.flags)
  {
  }

  /** `g` is the flags `f` marked CONTEXT_UNWOUND_TO_CALL, every other flag kept. */
  predicate Marked(g: Word, f: Word)
  {
    g & CONTEXT_UNWOUND_TO_CALL != 0 && g & !CONTEXT_UNWOUND_TO_CALL == f & !CONTEXT_UNWOUND_TO_CALL
  }

  /** CONTEXT flags of a frame unwound to its call. */
  function MarkUnwound(f: Word): (g: Word)
    ensures Marked(g, f)
  {
    f | CONTEXT_UNWOUND_TO_CALL
  }

  /** The trampoline test accepts its address with bit 0 either way, and nothing else. */
  lemma TrampolineMatch(startIp: Word, trampoline: Word)
    ensures IsTrampoline(startIp, trampoline) <==> startIp == trampoline || startIp == trampoline ^ 1
  {
    if IsTrampoline(startIp, trampoline) {
      SameAboveBitZero(startIp, trampoline);
    } else {
      DifferAboveBitZero(startIp, trampoline);
    }
  }

  lemma SameAboveBitZero(a: Word, b: Word)
    requires a & !1 == b & !1
    ensures a == b || a == b ^ 1
  {
  }

  lemma DifferAboveBitZero(a: Word, b: Word)
    requires a & !1 != b & !1
    ensures a != b && a != b ^ 1
  {
  }

  /** With a return address already unwound to the call, the address looked up is the
      one two bytes before it (wrapping below zero as the 32-bit subtraction does). */
  lemma UnwindIpBefore(dispatch: DispatcherContext, context: Context)
    ensures dispatch.controlPcIsUnwound ==> UnwindIp(dispatch, context) + 2 == context.pc
    ensures !dispatch.controlPcIsUnwound ==> UnwindIp(dispatch, context) == context.pc
  {
  }
}
