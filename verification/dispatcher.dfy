// The syscall dispatcher's arithmetic: how a syscall id selects a service table and
// a service, where the stack arguments are copied to, and what the copy holds.

module SyscallDispatcher {
  import opened Words
  import opened NtDefs
  import opened SyscallFrame

  /** A SYSTEM_SERVICE_TABLE: the service entry points, ServiceLimit, and the
      ArgumentTable giving the bytes of arguments each service takes. */
  datatype ServiceTable = ServiceTable(services: seq<Word>, limit: U32, argBytes: seq<Byte>)

  /** A table the dispatcher can index below its limit, whose argument sizes are whole words. */
  predicate TableValid(t: ServiceTable)
  {
    t.limit <= |t.services| && t.limit <= |t.argBytes|
    && forall n :: 0 <= n < |t.argBytes| ==> t.argBytes[n] % 4 == 0
  }

  /** KeServiceDescriptorTable and its copies: four service tables. */
  type Tables = ts: seq<ServiceTable> | |ts| == 4 witness [ServiceTable([], 0, []), ServiceTable([], 0, []),
                                                           ServiceTable([], 0, []), ServiceTable([], 0, [])]

  predicate TablesValid(ts: Tables)
  {
    forall k :: 0 <= k < 4 ==> TableValid(ts[k])
  }

  // ---------------------------------------------------------------------------
  // The syscall id

  /** The syscall id, as the caller leaves it in ip (r12). */
  function IdOf(cpu: Cpu): (id: U32)
  {
    cpu.r[12] as int
  }

  /** Bits 12-13 of the id select the table. */
  function TableOf(id: U32): (t: nat)
    ensures t < 4
  {
    (id / 0x1000) % 4
  }

  /** Bits 0-11 of the id are the service number. */
  function NumberOf(id: U32): (n: nat)
    ensures n < 0x1000
  {
    id % 0x1000
  }

  /** The id of service `n` of table `t`. */
  function SyscallId(t: nat, n: nat): (id: U32)
    requires t < 4 && n < 0x1000
    ensures id < 0x4000
  {
    t * 0x1000 + n
  }

  /** Decoding an id built from a table and a number gives them back. */
  lemma DecodeSyscallId(t: nat, n: nat)
    requires t < 4 && n < 0x1000
    ensures TableOf(SyscallId(t, n)) == t && NumberOf(SyscallId(t, n)) == n
  {
  }

  /** Every id is the id of its own table and number, plus bits above bit 13 that the
      dispatcher ignores. */
  lemma SyscallIdOfDecode(id: U32)
    ensures id % 0x4000 == SyscallId(TableOf(id), NumberOf(id))
  {
    var q := id / 0x1000;
    assert id == q * 0x1000 + NumberOf(id);
    assert q == (q / 4) * 4 + TableOf(id);
    assert id == (q / 4) * 0x4000 + SyscallId(TableOf(id), NumberOf(id));
  }

  /** The bits above bit 13 of the id select nothing. */
  lemma DecodeIgnoresHighBits(id: U32, k: nat)
    requires id + 0x4000 * k < 0x1_0000_0000
    ensures TableOf(id + 0x4000 * k) == TableOf(id) && NumberOf(id + 0x4000 * k) == NumberOf(id)
  {
    assert (id + 0x4000 * k) / 0x1000 == id / 0x1000 + 4 * k;
  }

  // ---------------------------------------------------------------------------
  // The argument spill

  /** Bytes copied from the caller's stack: the service's ArgumentTable entry, at least
      16 so that the four register arguments the caller pushed are always copied. */
  function SpillBytes(argBytes: Byte): (n: nat)
    ensures n >= 16 && n >= argBytes && (n == 16 || n == argBytes)
    ensures argBytes <= 16 ==> n == 16
    ensures argBytes > 16 ==> n == argBytes
    ensures argBytes % 4 == 0 ==> n % 4 == 0
  {
    if argBytes <= 16 then 16 else argBytes
  }

  /** Where the spill starts: `size` bytes below the frame, rounded down to 8 bytes. */
  function SpillBase(frame: Word, size: Word): (b: Word)
  {
    AlignDown(frame - size, 7)
  }

  /** The spill area is 8-byte aligned and starts below `frame - size` by that address's
      remainder modulo 8 (at most 7 bytes). */
  lemma SpillBaseAligned(frame: Word, size: Word)
    ensures SpillBase(frame, size) & 7 == 0
    ensures SpillBase(frame, size) + ((frame - size) & 7) == frame - size
  {
  }

  /** When the frame lies at least `size` bytes above address zero, the spill area ends
      at or below the frame: the copy never overwrites it. */
  lemma SpillBelowFrame(frame: Word, size: Word)
    requires size <= frame
    ensures SpillBase(frame, size) <= frame - size
  {
  }

  /** The stack-argument copy: `words` words taken from the caller's stack (where the
      caller pushed r0..r3 and then its stack arguments), from the highest one down. */
  method SpillArguments(caller: seq<Word>, words: nat) returns (spill: array<Word>)
    requires words <= |caller|
    ensures fresh(spill)
    ensures spill[..] == caller[..words]
  {
    spill := new Word[words];
    var k := words;
    while k > 0
      invariant 0 <= k <= words
      invariant spill[k..] == caller[k..words]
      decreases k
    {
      k := k - 1;
      spill[k] := caller[k];
    }
  }

  /** What the dispatcher does after saving the frame. */
  datatype Entry =
    | Invalid(out: Cpu)                   // back to the caller with STATUS_INVALID_PARAMETER
    | Call(service: Word, r: seq<Word>, sp: Word, stackArgs: seq<Word>)
        // the service entered with r0..r3 = r and its stack arguments at sp

  /** The CPSR with one condition flag set to `on`. */
  function WithFlag(cpsr: Word, flag: Word, on: bool): (r: Word)
  {
    if on then cpsr | flag else cpsr & !flag
  }

  lemma WithNegative(cpsr: Word, on: bool)
    ensures WithFlag(cpsr, FLAG_N, on) & !FLAGS == cpsr & !FLAGS
  {
  }

  lemma WithZero(cpsr: Word, on: bool)
    ensures WithFlag(cpsr, FLAG_Z, on) & !FLAGS == cpsr & !FLAGS
  {
  }

  lemma WithOverflow(cpsr: Word, on: bool)
    ensures WithFlag(cpsr, FLAG_V, on) & !FLAGS == cpsr & !FLAGS
  {
  }

  lemma WithCarry(cpsr: Word, on: bool)
    ensures WithFlag(cpsr, FLAG_C, on) & FLAG_C != 0 <==> on
    ensures WithFlag(cpsr, FLAG_C, on) & !FLAGS == cpsr & !FLAGS
  {
  }

  /** The CPSR with its condition flags set to n, z, c and v, the carry last. */
  function WithNzcv(cpsr: Word, n: bool, z: bool, c: bool, v: bool): (r: Word)
    ensures r & FLAG_C != 0 <==> c
    ensures r & !FLAGS == cpsr & !FLAGS
  {
    var w1 := WithFlag(cpsr, FLAG_N, n);
    var w2 := WithFlag(w1, FLAG_Z, z);
    var w3 := WithFlag(w2, FLAG_V, v);
    WithNegative(cpsr, n);
    WithZero(w1, z);
    WithOverflow(w2, v);
    WithCarry(w3, c);
    WithFlag(w3, FLAG_C, c)
  }

  /** Whether a - b, computed on 32 bits, has bit 31 set. */
  predicate Negative(a: U32, b: U32)
  {
    (a - b) % 0x1_0000_0000 >= 0x8000_0000
  }

  /** Whether a - b, read as C ints, leaves the int range. */
  predicate Overflows(a: U32, b: U32)
  {
    var diff := SignedOf(a) - SignedOf(b);
    !(-0x8000_0000 <= diff < 0x8000_0000)
  }

  /** The CPSR after `cmp a, b` on two 32-bit values: N is bit 31 of the 32-bit
      difference, Z is set exactly when a == b, V when the signed difference leaves the
      int range, and C exactly when the subtraction does not borrow (a >= b unsigned),
      the test `bcs` makes; every bit outside the four flags is kept. */
  function CmpFlags(cpsr: Word, a: U32, b: U32): (r: Word)
    ensures r & FLAG_C != 0 <==> b <= a
    ensures r & !FLAGS == cpsr & !FLAGS
  {
    WithNzcv(cpsr, Negative(a, b), a == b, b <= a, Overflows(a, b))
  }

  /** r0..r12 when an out-of-range id jumps back to the return path: r0 the status, r1
      and r8 the frame, r2 the caller's stack pointer, r4 the address of the id's table
      descriptor (`tablesAddr` is frame->syscall_table), r5 its ServiceLimit, r6 the stack
      pointer at entry, ip the id with bits 12 and up cleared; r3, r7 and r9..r11 the
      caller's. */
  function InvalidRegs(cpu: Cpu, frame: Word, tablesAddr: Word, ts: Tables): (r: GpRegs)
  {
    [STATUS_INVALID_PARAMETER, frame, CallerSp(cpu.sp), cpu.r[3],
     tablesAddr + (((cpu.r[12] >> 12) & 3) << 4), LimitWord(ts, IdOf(cpu)), cpu.sp, cpu.r[7],
     frame, cpu.r[9], cpu.r[10], cpu.r[11], cpu.r[12] & 0xfff]
  }

  /** The live registers when an out-of-range id jumps back to the return path: those
      registers, sp just above the frame's first four words, and the flags of comparing
      the number with the limit, whose carry is what sent the dispatcher here. */
  function InvalidLive(cpu: Cpu, frame: Word, tablesAddr: Word, ts: Tables): (live: Cpu)
    ensures live.r[0] == STATUS_INVALID_PARAMETER && live.r[1] == frame
    ensures live.r[2] == CallerSp(cpu.sp) && live.r[3] == cpu.r[3]
    ensures live.sp == frame + 16 && live.lr == cpu.lr
    ensures live.d == cpu.d && live.fpscr == cpu.fpscr
    ensures live.cpsr & FLAG_C != 0 <==> !InRange(ts, IdOf(cpu))
    ensures live.cpsr & !FLAGS == cpu.cpsr & !FLAGS
  {
    cpu.(r := InvalidRegs(cpu, frame, tablesAddr, ts),
         sp := frame + 16,
         cpsr := CmpFlags(cpu.cpsr, NumberOf(IdOf(cpu)), LimitOf(ts, IdOf(cpu))))
  }

  /** The dispatcher's scratch registers at that jump: r4 the descriptor address, r5 the
      limit, r6 the entry stack pointer, r8 the frame, ip the id's low 12 bits; r7 and
      r9..r11 the caller's. */
  lemma InvalidLiveScratch(cpu: Cpu, frame: Word, tablesAddr: Word, ts: Tables)
    ensures var r := InvalidRegs(cpu, frame, tablesAddr, ts);
      && r[4] == tablesAddr + (((cpu.r[12] >> 12) & 3) << 4)
      && r[5] == LimitWord(ts, IdOf(cpu))
      && r[6] == cpu.sp && r[8] == frame && r[12] == cpu.r[12] & 0xfff
      && r[7] == cpu.r[7] && r[9] == cpu.r[9] && r[10] == cpu.r[10] && r[11] == cpu.r[11]
  {
    var r := InvalidRegs(cpu, frame, tablesAddr, ts);
    assert r[4] == tablesAddr + (((cpu.r[12] >> 12) & 3) << 4);
    assert r[5] == LimitWord(ts, IdOf(cpu));
    assert r[12] == cpu.r[12] & 0xfff;
    assert r[6] == cpu.sp && r[8] == frame;
    assert r[7] == cpu.r[7] && r[9] == cpu.r[9];
  }

  /** An id beyond its table's limit calls no service: the caller gets
      STATUS_INVALID_PARAMETER in r0, the frame address in r1 and its own stack pointer in
      r2, its r3..r12, sp, lr, fpscr and VFP registers back, and resumes at its return
      address in the Thumb state of that address, with Z and C set and N clear. */
  lemma InvalidIdReturnsToCaller(fs: FrameState, cpu: Cpu, frame: Word, tablesAddr: Word, ts: Tables)
    requires !InRange(ts, IdOf(cpu))
    ensures var out := ReturnPath(EnterFrame(fs, cpu), InvalidLive(cpu, frame, tablesAddr, ts));
      && out.r == [STATUS_INVALID_PARAMETER, frame, CallerSp(cpu.sp)] + cpu.r[3..]
      && out.sp == CallerSp(cpu.sp) && out.lr == cpu.r[3] && out.pc == cpu.lr
      && out.d == cpu.d && out.fpscr == cpu.fpscr
      && ThumbSet(out.cpsr) == LowBit(cpu.lr)
      && out.cpsr & (FLAG_N | FLAG_Z | FLAG_C) == FLAG_Z | FLAG_C
  {
    var live := InvalidLive(cpu, frame, tablesAddr, ts);
    var fs1 := EnterFrame(fs, cpu);
    PlainSyscallReturnsToCaller(fs, cpu, STATUS_INVALID_PARAMETER, live);
    ReturnPathRegisters(fs1, live);
    var out := ReturnPath(fs1, live);
    assert out.r == out.r[..4] + out.r[4..];
    assert cpu.r[3..] == [cpu.r[3]] + cpu.r[4..];
    CarryKept(out.cpsr, live.cpsr);
  }

  lemma CarryKept(out: Word, live: Word)
    requires out & !(FLAG_N | FLAG_Z | THUMB) == live & !(FLAG_N | FLAG_Z | THUMB)
    requires live & FLAG_C != 0 && out & (FLAG_N | FLAG_Z) == FLAG_Z
    ensures out & (FLAG_N | FLAG_Z | FLAG_C) == FLAG_Z | FLAG_C
  {
  }

  /** The ServiceLimit of the id's table. */
  function LimitOf(ts: Tables, id: U32): (limit: U32)
  {
    ts[TableOf(id)].limit
  }

  /** That limit as the word the dispatcher loads into r5. */
  function LimitWord(ts: Tables, id: U32): (limit: Word)
  {
    LimitOf(ts, id) as Word
  }

  /** Whether the id is within its table's ServiceLimit (the unsigned `bcs` test). */
  predicate InRange(ts: Tables, id: U32)
  {
    NumberOf(id) < LimitOf(ts, id)
  }

  /** The service an in-range id calls, and the bytes of arguments it takes. */
  function ServiceOf(ts: Tables, id: U32): (s: Word)
    requires TablesValid(ts) && InRange(ts, id)
  {
    ts[TableOf(id)].services[NumberOf(id)]
  }

  /** The spill size as the word the dispatcher subtracts from the frame address. */
  function SpillSize(ts: Tables, id: U32): (n: Word)
    requires TablesValid(ts) && InRange(ts, id)
  {
    ArgBytesOf(ts, id) as Word
  }

  /** The bytes of stack the dispatcher copies for an in-range id: its ArgumentTable
      entry, but never fewer than 16. */
  function ArgBytesOf(ts: Tables, id: U32): (n: nat)
    requires TablesValid(ts) && InRange(ts, id)
    ensures var entry := ts[TableOf(id)].argBytes[NumberOf(id)];
      n >= 16 && n >= entry && (n == 16 || n == entry)
    ensures n % 4 == 0 && n < 0x100
  {
    assert TableValid(ts[TableOf(id)]);
    SpillBytes(ts[TableOf(id)].argBytes[NumberOf(id)])
  }
}
