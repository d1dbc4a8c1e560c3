// The per-thread syscall frame as a record of registers, and the two record maps that
// NtSetContextThread and NtGetContextThread apply between a frame and a CONTEXT.

module SyscallFrame {
  import opened Words
  import opened NtDefs
  import opened ArmContext

  /** The register part of struct syscall_frame: r0..r12, pc, sp, lr, cpsr,
      restore_flags, fpscr and d0..d31. */
  datatype FrameState = FrameState(
    r: GpRegs,
    pc: Word,
    sp: Word,
    lr: Word,
    cpsr: Word,
    restoreFlags: Word,
    fpscr: U32,
    d: FpRegs)

  const ZeroFrame := FrameState(ZeroGp, 0, 0, 0, 0, 0, 0, ZeroFp)

  // The restore_flags bits the dispatcher's return path tests: the low bytes of
  // CONTEXT_INTEGER (bit 1) and CONTEXT_FLOATING_POINT (bit 2). Bit 0, the low byte of
  // CONTEXT_CONTROL, is recorded but not tested.
  const RESTORE_CONTROL: Word := 1
  const RESTORE_INTEGER: Word := 2
  const RESTORE_FP: Word := 4

  // ---------------------------------------------------------------------------
  // Flag arithmetic on plain words

  /** The groups a ContextFlags value asks for, with the CONTEXT_ARM bit removed. */
  function Requested(flags: Word): (f: Word)
  {
    flags & !CONTEXT_ARM
  }

  /** Whether `flags` asks for the register group `group` (one of the CONTEXT_* groups). */
  predicate Wants(flags: Word, group: Word)
  {
    Requested(flags) & group != 0
  }

  /** The bits NtSetContextThread ORs into restore_flags: every requested bit except the
      integer one. */
  function Gained(flags: Word): (g: Word)
  {
    flags & !CONTEXT_ARM & !CONTEXT_INTEGER
  }

  /** The gained bits never include the integer bit, and include the control and FP bits
      exactly for the requested groups. */
  lemma GainedBits(flags: Word)
    ensures Gained(flags) & RESTORE_INTEGER == 0
    ensures Gained(flags) & RESTORE_CONTROL != 0 <==> Wants(flags, CONTEXT_CONTROL)
    ensures Gained(flags) & RESTORE_FP != 0 <==> Wants(flags, CONTEXT_FLOATING_POINT)
  {
  }

  /** ORing the gained bits into restore_flags never sets the integer bit, and keeps every
      bit that was set. */
  lemma GainedKeeps(rf: Word, flags: Word)
    ensures (rf | Gained(flags)) & RESTORE_INTEGER == rf & RESTORE_INTEGER
    ensures (rf | Gained(flags)) & rf == rf
  {
  }

  /** ORing the gained bits into restore_flags sets the control and FP bits exactly for
      the requested groups (or when they were set before). */
  lemma GainedSets(rf: Word, flags: Word)
    ensures (rf | Gained(flags)) & RESTORE_FP != 0 <==> rf & RESTORE_FP != 0 || Wants(flags, CONTEXT_FLOATING_POINT)
    ensures (rf | Gained(flags)) & RESTORE_CONTROL != 0 <==> rf & RESTORE_CONTROL != 0 || Wants(flags, CONTEXT_CONTROL)
  {
  }

  /** The ContextFlags NtGetContextThread leaves: the caller's, with the full value of
      every group it filled ORed in. */
  function Reported(flags: Word): (r: Word)
  {
    flags
      | (if Wants(flags, CONTEXT_INTEGER) then CONTEXT_INTEGER else 0)
      | (if Wants(flags, CONTEXT_CONTROL) then CONTEXT_CONTROL else 0)
      | (if Wants(flags, CONTEXT_FLOATING_POINT) then CONTEXT_FLOATING_POINT else 0)
  }

  /** NtGetContextThread leaves every bit outside CONTEXT_ALL as the caller set it, and
      reports the full integer group flag exactly when it filled that group. */
  lemma ReportedGroups(flags: Word)
    ensures Reported(flags) & !CONTEXT_ALL == flags & !CONTEXT_ALL
    ensures Reported(flags) & CONTEXT_INTEGER == CONTEXT_INTEGER <==> Wants(flags, CONTEXT_INTEGER)
  {
  }

  /** ... and the full control and floating-point group flags exactly when it filled them. */
  lemma ReportedGroupsControlFp(flags: Word)
    ensures Reported(flags) & CONTEXT_CONTROL == CONTEXT_CONTROL <==> Wants(flags, CONTEXT_CONTROL)
    ensures Reported(flags) & CONTEXT_FLOATING_POINT == CONTEXT_FLOATING_POINT <==> Wants(flags, CONTEXT_FLOATING_POINT)
  {
  }

  lemma ReportedMasked(flags: Word)
    ensures Reported(flags) & !CONTEXT_ARM == flags & !CONTEXT_ARM
  {
  }

  /** Reporting the groups asks for no group the request did not: a CONTEXT read back
      requests the same groups when it is set again. */
  lemma ReportedRequests(flags: Word)
    ensures Requested(Reported(flags)) == Requested(flags)
  {
    ReportedMasked(flags);
  }

  /** The Pc a frame holds for a CONTEXT's Pc and Cpsr: bit 0 cleared, then set again in
      Thumb state. */
  function FramePc(pc: Word, cpsr: Word): (r: Word)
  {
    SetLowBit(pc, ThumbSet(cpsr))
  }

  /** The frame Pc has bit 0 set exactly in Thumb state, and is the CONTEXT's Pc otherwise. */
  lemma FramePcBits(pc: Word, cpsr: Word)
    ensures LowBit(FramePc(pc, cpsr)) <==> ThumbSet(cpsr)
    ensures FramePc(pc, cpsr) & !1 == pc & !1
  {
    SetLowBitBits(pc, ThumbSet(cpsr));
  }

  // ---------------------------------------------------------------------------
  // NtSetContextThread / NtGetContextThread on the current thread

  /** NtSetContextThread on the current thread: the requested groups copied into the
      frame, and restore_flags gaining the requested bits but the integer one. */
  function ApplyContext(fs: FrameState, c: Context): (t: FrameState)
  {
    var integer := Wants(c.flags, CONTEXT_INTEGER);
    var ctl := Wants(c.flags, CONTEXT_CONTROL);
    var fp := Wants(c.flags, CONTEXT_FLOATING_POINT);
    FrameState(
      if integer then c.r else fs.r,
      if ctl then FramePc(c.pc, c.cpsr) else fs.pc,
      if ctl then c.sp else fs.sp,
      if ctl then c.lr else fs.lr,
      if ctl then c.cpsr else fs.cpsr,
      fs.restoreFlags | Gained(c.flags),
      if fp then c.fpscr else fs.fpscr,
      if fp then c.d else fs.d)
  }

  /** Each register group of the frame is the CONTEXT's when requested and untouched
      otherwise; with the control group the frame Pc is the CONTEXT's with bit 0 set
      exactly in Thumb state. */
  lemma ApplyContextGroups(fs: FrameState, c: Context)
    ensures var t := ApplyContext(fs, c);
      && t.r == (if Wants(c.flags, CONTEXT_INTEGER) then c.r else fs.r)
      && (Wants(c.flags, CONTEXT_CONTROL) ==>
            t.sp == c.sp && t.lr == c.lr && t.cpsr == c.cpsr && t.pc == FramePc(c.pc, c.cpsr))
      && (!Wants(c.flags, CONTEXT_CONTROL) ==> t.sp == fs.sp && t.lr == fs.lr && t.pc == fs.pc && t.cpsr == fs.cpsr)
      && (Wants(c.flags, CONTEXT_FLOATING_POINT) ==> t.fpscr == c.fpscr && t.d == c.d)
      && (!Wants(c.flags, CONTEXT_FLOATING_POINT) ==> t.fpscr == fs.fpscr && t.d == fs.d)
  {
    ApplyContextControl(fs, c);
    ApplyContextOthers(fs, c);
  }

  lemma ApplyContextControl(fs: FrameState, c: Context)
    ensures var t := ApplyContext(fs, c);
      && (Wants(c.flags, CONTEXT_CONTROL) ==>
            t.sp == c.sp && t.lr == c.lr && t.cpsr == c.cpsr && t.pc == FramePc(c.pc, c.cpsr))
      && (!Wants(c.flags, CONTEXT_CONTROL) ==> t.sp == fs.sp && t.lr == fs.lr && t.pc == fs.pc && t.cpsr == fs.cpsr)
  {
  }

  lemma ApplyContextOthers(fs: FrameState, c: Context)
    ensures var t := ApplyContext(fs, c);
      && t.r == (if Wants(c.flags, CONTEXT_INTEGER) then c.r else fs.r)
      && (Wants(c.flags, CONTEXT_FLOATING_POINT) ==> t.fpscr == c.fpscr && t.d == c.d)
      && (!Wants(c.flags, CONTEXT_FLOATING_POINT) ==> t.fpscr == fs.fpscr && t.d == fs.d)
  {
  }

  /** restore_flags only gains bits, never the integer bit, and gains the FP and control
      bits exactly for the requested groups. */
  lemma ApplyContextRestoreFlags(fs: FrameState, c: Context)
    ensures var rf := ApplyContext(fs, c).restoreFlags;
      && rf & RESTORE_INTEGER == fs.restoreFlags & RESTORE_INTEGER
      && rf & fs.restoreFlags == fs.restoreFlags
      && (rf & RESTORE_FP != 0 <==> fs.restoreFlags & RESTORE_FP != 0 || Wants(c.flags, CONTEXT_FLOATING_POINT))
      && (rf & RESTORE_CONTROL != 0 <==> fs.restoreFlags & RESTORE_CONTROL != 0 || Wants(c.flags, CONTEXT_CONTROL))
  {
    GainedKeeps(fs.restoreFlags, c.flags);
    GainedSets(fs.restoreFlags, c.flags);
  }

  lemma OrTwice(a: Word, g: Word)
    ensures (a | g) | g == a | g
  {
  }

  /** Setting the same CONTEXT twice is setting it once. */
  lemma ApplyContextIdempotent(fs: FrameState, c: Context)
    ensures ApplyContext(ApplyContext(fs, c), c) == ApplyContext(fs, c)
  {
    var once := ApplyContext(fs, c);
    ApplyContextGroups(fs, c);
    ApplyContextGroups(once, c);
    ApplyContextFlags(fs, c);
    ApplyContextFlags(once, c);
    OrTwice(fs.restoreFlags, Gained(c.flags));
  }

  /** NtGetContextThread on the current thread: the requested groups read from the frame,
      and the group flags ORed into ContextFlags; every other field left as it was. */
  function ReadContext(fs: FrameState, c: Context): (t: Context)
    ensures t.flags == Reported(c.flags)
  {
    var integer := Wants(c.flags, CONTEXT_INTEGER);
    var ctl := Wants(c.flags, CONTEXT_CONTROL);
    var fp := Wants(c.flags, CONTEXT_FLOATING_POINT);
    Context(
      Reported(c.flags),
      if integer then fs.r else c.r,
      if ctl then fs.sp else c.sp,
      if ctl then fs.lr else c.lr,
      if ctl then fs.pc else c.pc,
      if ctl then fs.cpsr else c.cpsr,
      if fp then fs.fpscr else c.fpscr,
      if fp then fs.d else c.d)
  }

  /** NtGetContextThread fills exactly the requested groups from the frame and leaves
      every other field of the CONTEXT as it was. */
  lemma ReadContextGroups(fs: FrameState, c: Context)
    ensures var t := ReadContext(fs, c);
      && t.r == (if Wants(c.flags, CONTEXT_INTEGER) then fs.r else c.r)
      && (Wants(c.flags, CONTEXT_CONTROL) ==> t.sp == fs.sp && t.lr == fs.lr && t.pc == fs.pc && t.cpsr == fs.cpsr)
      && (!Wants(c.flags, CONTEXT_CONTROL) ==> t.sp == c.sp && t.lr == c.lr && t.pc == c.pc && t.cpsr == c.cpsr)
      && (Wants(c.flags, CONTEXT_FLOATING_POINT) ==> t.fpscr == fs.fpscr && t.d == fs.d)
      && (!Wants(c.flags, CONTEXT_FLOATING_POINT) ==> t.fpscr == c.fpscr && t.d == c.d)
  {
  }

  /** Reading a CONTEXT back after setting it gives the CONTEXT itself, with the groups
      reported in ContextFlags and, when the control group was set, the Pc bit 0
      following the Thumb bit. */
  lemma SetThenGet(fs: FrameState, c: Context)
    ensures ReadContext(ApplyContext(fs, c), c)
         == c.(flags := Reported(c.flags),
               pc := if Wants(c.flags, CONTEXT_CONTROL) then FramePc(c.pc, c.cpsr) else c.pc)
  {
  }

  /** Setting what was just read changes nothing in a frame whose Pc bit 0 follows its
      Thumb bit, except that restore_flags gains the requested bits. */
  lemma GetThenSet(fs: FrameState, c: Context)
    requires LowBit(fs.pc) == ThumbSet(fs.cpsr)
    ensures ApplyContext(fs, ReadContext(fs, c)) == fs.(restoreFlags := fs.restoreFlags | Gained(c.flags))
  {
    GetThenSetRegisters(fs, c);
    GetThenSetPc(fs, c);
    GetThenSetFlags(fs, c);
  }

  lemma GetThenSetRegisters(fs: FrameState, c: Context)
    ensures var t := ApplyContext(fs, ReadContext(fs, c));
      t.r == fs.r && t.sp == fs.sp && t.lr == fs.lr && t.cpsr == fs.cpsr && t.fpscr == fs.fpscr && t.d == fs.d
  {
    ReportedRequests(c.flags);
    ReadContextGroups(fs, c);
    ApplyContextGroups(fs, ReadContext(fs, c));
  }

  lemma GetThenSetPc(fs: FrameState, c: Context)
    requires LowBit(fs.pc) == ThumbSet(fs.cpsr)
    ensures ApplyContext(fs, ReadContext(fs, c)).pc == fs.pc
  {
    ReportedRequests(c.flags);
    ReadContextGroups(fs, c);
    ApplyContextGroups(fs, ReadContext(fs, c));
    SetLowBitUnchanged(fs.pc, ThumbSet(fs.cpsr));
  }

  lemma GetThenSetFlags(fs: FrameState, c: Context)
    ensures ApplyContext(fs, ReadContext(fs, c)).restoreFlags == fs.restoreFlags | Gained(c.flags)
  {
    var rc := ReadContext(fs, c);
    ApplyContextFlags(fs, rc);
    GainedReported(c.flags);
  }

  lemma ApplyContextFlags(fs: FrameState, c: Context)
    ensures ApplyContext(fs, c).restoreFlags == fs.restoreFlags | Gained(c.flags)
  {
  }

  lemma GainedReported(flags: Word)
    ensures Gained(Reported(flags)) == Gained(flags)
  {
    GainedMasked(flags);
  }

  lemma GainedMasked(flags: Word)
    ensures Reported(flags) & !CONTEXT_ARM & !CONTEXT_INTEGER == flags & !CONTEXT_ARM & !CONTEXT_INTEGER
  {
  }

  // ---------------------------------------------------------------------------
  // The CPU on either side of the syscall dispatcher

  /** The registers of the CPU as the dispatcher sees and leaves them; d holds d0..d31. */
  datatype Cpu = Cpu(r: GpRegs, sp: Word, lr: Word, pc: Word, cpsr: Word, fpscr: U32, d: FpRegs)

  /** The CPSR as the dispatcher stores it: the Thumb bit is bit 0 of the return address. */
  function EntryCpsr(cpsr: Word, lr: Word): (r: Word)
    ensures ThumbSet(r) == LowBit(lr)
    ensures r & !THUMB == cpsr & !THUMB
  {
    WithThumb(cpsr, LowBit(lr))
  }

  /** Stack pointer of the caller before it pushed r0..r3. */
  function CallerSp(sp: Word): (r: Word)
    ensures r - 16 == sp
  {
    sp + 16
  }

  /** Syscall entry: r4..r12 (ip holding the syscall id), the return address as pc, the
      caller's sp and lr (held in r3), the CPSR, fpscr and d0..d15 saved into the frame;
      restore_flags cleared. r0..r3 and d16..d31 of the frame are not written. */
  function EnterFrame(fs: FrameState, cpu: Cpu): (t: FrameState)
    ensures t.restoreFlags == 0
    ensures t.r[4..] == cpu.r[4..] && t.r[..4] == fs.r[..4]
    ensures t.pc == cpu.lr && t.lr == cpu.r[3] && t.sp == CallerSp(cpu.sp)
    ensures LowBit(t.pc) == ThumbSet(t.cpsr)
    ensures t.d[..16] == cpu.d[..16] && t.d[16..] == fs.d[16..] && t.fpscr == cpu.fpscr
  {
    FrameState(
      fs.r[..4] + cpu.r[4..],
      cpu.lr,
      CallerSp(cpu.sp),
      cpu.r[3],
      EntryCpsr(cpu.cpsr, cpu.lr),
      0,
      cpu.fpscr,
      cpu.d[..16] + fs.d[16..])
  }

  /** Whether restore_flags asks the return path for `bit`. */
  predicate Reloads(restoreFlags: Word, bit: Word)
  {
    restoreFlags & bit != 0
  }

  /** The CPSR condition flags: negative, zero, carry and overflow. */
  const FLAG_N: Word := 0x8000_0000
  const FLAG_Z: Word := 0x4000_0000
  const FLAG_C: Word := 0x2000_0000
  const FLAG_V: Word := 0x1000_0000
  const FLAGS: Word := 0xf000_0000

  /** The CPSR after `tst value, #mask` with an unrotated immediate: N is bit 31 of
      value & mask, Z is set exactly when value & mask is zero; C, V and every other bit
      are kept. */
  function TstFlags(cpsr: Word, value: Word, mask: Word): (r: Word)
  {
    (cpsr & !(FLAG_N | FLAG_Z)) | (value & mask & FLAG_N) | (if value & mask == 0 then FLAG_Z else 0)
  }

  /** The return path to user mode: d0..d15 and fpscr reloaded only with the FP bit,
      r0..r3 only with the integer bit; lr, sp, r4..r12 and pc always; the Thumb state
      taken from bit 0 of the new pc, and N and Z left by the test of the integer bit.
      `cpu` holds the live registers, r0 the status. */
  function ReturnPath(fs: FrameState, cpu: Cpu): (out: Cpu)
  {
    var fp := if Reloads(fs.restoreFlags, RESTORE_FP) then cpu.(fpscr := fs.fpscr, d := fs.d[..16] + cpu.d[16..]) else cpu;
    var low := if Reloads(fs.restoreFlags, RESTORE_INTEGER) then fs.r[..4] else cpu.r[..4];
    fp.(r := low + fs.r[4..], lr := fs.lr, sp := fs.sp, pc := fs.pc,
        cpsr := ReturnCpsr(cpu.cpsr, fs.restoreFlags, LowBit(fs.pc)))
  }

  /** The CPSR the return path leaves, written out bit by bit: N clear, Z set exactly when
      r0..r3 are not reloaded, Thumb from bit 0 of the new pc, the rest the live bits. */
  function ReturnCpsr(cpsr: Word, restoreFlags: Word, thumb: bool): (r: Word)
  {
    (cpsr & !(FLAG_N | FLAG_Z | THUMB))
    | (if Reloads(restoreFlags, RESTORE_INTEGER) then 0 else FLAG_Z)
    | (if thumb then THUMB else 0)
  }

  /** That CPSR is what `tst ip, #2` followed by the interworking load of pc leaves: the
      flags of the test, then the Thumb bit of the new pc. */
  lemma ReturnCpsrIsTst(cpsr: Word, restoreFlags: Word, thumb: bool)
    ensures ReturnCpsr(cpsr, restoreFlags, thumb) == WithThumb(TstFlags(cpsr, restoreFlags, RESTORE_INTEGER), thumb)
  {
  }

  /** The CPSR the return path leaves keeps C, V and the mode bits of the live one. */
  lemma ReturnCpsrBits(cpsr: Word, restoreFlags: Word, thumb: bool)
    ensures var out := ReturnCpsr(cpsr, restoreFlags, thumb);
      && ThumbSet(out) == thumb
      && out & FLAG_N == 0
      && (out & FLAG_Z != 0 <==> !Reloads(restoreFlags, RESTORE_INTEGER))
      && out & !(FLAG_N | FLAG_Z | THUMB) == cpsr & !(FLAG_N | FLAG_Z | THUMB)
  {
  }

  /** What the return path guarantees: the callee-saved registers, sp, lr and pc come
      from the frame; r0..r3, fpscr and d0..d15 from the frame exactly when their bits
      are set and are the live values otherwise; d16..d31 are never touched. */
  lemma ReturnPathRegisters(fs: FrameState, cpu: Cpu)
    ensures var out := ReturnPath(fs, cpu);
      && out.r[4..] == fs.r[4..] && out.sp == fs.sp && out.lr == fs.lr && out.pc == fs.pc
      && ThumbSet(out.cpsr) == LowBit(fs.pc) && out.cpsr & FLAG_N == 0
      && (out.cpsr & FLAG_Z != 0 <==> !Reloads(fs.restoreFlags, RESTORE_INTEGER))
      && out.cpsr & !(FLAG_N | FLAG_Z | THUMB) == cpu.cpsr & !(FLAG_N | FLAG_Z | THUMB)
      && out.r[..4] == (if Reloads(fs.restoreFlags, RESTORE_INTEGER) then fs.r[..4] else cpu.r[..4])
      && (Reloads(fs.restoreFlags, RESTORE_FP) ==> out.d[..16] == fs.d[..16] && out.fpscr == fs.fpscr)
      && (!Reloads(fs.restoreFlags, RESTORE_FP) ==> out.d[..16] == cpu.d[..16] && out.fpscr == cpu.fpscr)
      && out.d[16..] == cpu.d[16..]
  {
    var out := ReturnPath(fs, cpu);
    ReturnCpsrBits(cpu.cpsr, fs.restoreFlags, LowBit(fs.pc));
    assert out.r[..4] == (if Reloads(fs.restoreFlags, RESTORE_INTEGER) then fs.r[..4] else cpu.r[..4]);
    assert out.r[4..] == fs.r[4..];
  }

  /** Returning twice through the same frame is returning once. */
  lemma ReturnPathIdempotent(fs: FrameState, cpu: Cpu)
    ensures ReturnPath(fs, ReturnPath(fs, cpu)) == ReturnPath(fs, cpu)
  {
    var once := ReturnPath(fs, cpu);
    var twice := ReturnPath(fs, once);
    ReturnPathRegisters(fs, cpu);
    ReturnPathRegisters(fs, once);
    assert twice.r == twice.r[..4] + twice.r[4..];
    assert once.r == once.r[..4] + once.r[4..];
    assert twice.d == twice.d[..16] + twice.d[16..];
    assert once.d == once.d[..16] + once.d[16..];
    ReturnCpsrIdempotent(cpu.cpsr, fs.restoreFlags, LowBit(fs.pc));
  }

  lemma ReturnCpsrIdempotent(cpsr: Word, restoreFlags: Word, thumb: bool)
    ensures var once := ReturnCpsr(cpsr, restoreFlags, thumb);
      ReturnCpsr(once, restoreFlags, thumb) == once
  {
  }

  /** A system call whose service changes nothing in the frame returns to its caller
      with the status in r0, r4..r12, sp and lr as they were before the call, the
      return address as pc, the Thumb state of the return address, and Z set and N clear
      by the test of the (cleared) integer bit. restore_flags is clear, so d0..d31 and
      fpscr are not reloaded: they are whatever the service left live. */
  lemma PlainSyscallReturnsToCaller(fs: FrameState, cpu: Cpu, status: Word, live: Cpu)
    requires live.r[0] == status
    ensures var out := ReturnPath(EnterFrame(fs, cpu), live);
      && out.r[0] == status
      && out.r[4..] == cpu.r[4..]
      && out.sp == CallerSp(cpu.sp) && out.lr == cpu.r[3] && out.pc == cpu.lr
      && out.d == live.d && out.fpscr == live.fpscr
      && ThumbSet(out.cpsr) == LowBit(cpu.lr) && out.cpsr & (FLAG_N | FLAG_Z) == FLAG_Z
      && out.cpsr & !(FLAG_N | FLAG_Z | THUMB) == live.cpsr & !(FLAG_N | FLAG_Z | THUMB)
  {
    var fs1 := EnterFrame(fs, cpu);
    ReturnPathRegisters(fs1, live);
    var out := ReturnPath(fs1, live);
    assert out.d == out.d[..16] + out.d[16..];
    assert live.d == live.d[..16] + live.d[16..];
    assert out.r[0] == out.r[..4][0];
  }
}
