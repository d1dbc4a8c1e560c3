// Machine words of the 32-bit ARM target: registers and addresses are `Word`s,
// the VFP registers are opaque 64-bit `Quad`s, memory is little-endian bytes.

module Words {

  /** A register or an address: bit operations and wrap-around arithmetic. */
  type Word = bv32

  /** A byte of memory, as a number. */
  type Byte = x: int | 0 <= x < 0x100

  /** A 32-bit word that is only ever copied (fpscr), as a number. */
  type U32 = x: int | 0 <= x < 0x1_0000_0000

  /** A 64-bit VFP register, only ever copied, as a number. */
  type Quad = x: int | 0 <= x < 0x1_0000_0000_0000_0000

  /** r0..r12 of a register file (r11 is the frame pointer, r12 the scratch register ip). */
  type GpRegs = s: seq<Word> | |s| == 13 witness seq(13, _ => 0 as Word)

  /** d0..d31 of the VFP register file. */
  type FpRegs = s: seq<Quad> | |s| == 32 witness seq(32, _ => 0)

  datatype Option<T> = None | Some(value: T)

  /** A 32-bit word read as a C int (two's complement). */
  function SignedOf(w: U32): (x: int)
    ensures -0x8000_0000 <= x < 0x8000_0000
    ensures x % 0x1_0000_0000 == w
  {
    if w < 0x8000_0000 then w else w - 0x1_0000_0000
  }

  const ZeroGp: GpRegs := [0, 0, 0, 0, 0, 0, 0, 0, 0, 0, 0, 0, 0]
  const ZeroFp: FpRegs := ZeroQuads + ZeroQuads + ZeroQuads + ZeroQuads
  const ZeroQuads: seq<Quad> := [0, 0, 0, 0, 0, 0, 0, 0]

  /** The Thumb state bit of the CPSR. */
  const THUMB: Word := 0x20

  predicate ThumbSet(cpsr: Word)
  {
    cpsr & THUMB != 0
  }

  /** The CPSR with its Thumb bit forced to `on`, every other bit kept. */
  function WithThumb(cpsr: Word, on: bool): (r: Word)
    ensures ThumbSet(r) == on
    ensures r & !THUMB == cpsr & !THUMB
  {
    if on then cpsr | THUMB else cpsr & !THUMB
  }

  /** Bit 0 of an address: set for a Thumb code address. */
  predicate LowBit(w: Word)
  {
    w & 1 != 0
  }

  /** The Pc as a CONTEXT records it: bit 0 set when the CPSR is in Thumb state. */
  function ThumbPc(pc: Word, cpsr: Word): (r: Word)
    ensures LowBit(r) <==> ThumbSet(cpsr) || LowBit(pc)
    ensures r == pc || r == pc | 1
    ensures LowBit(pc) || !ThumbSet(cpsr) ==> r == pc
  {
    if ThumbSet(cpsr) then pc | 1 else pc
  }

  /** `w` with bit 0 forced to `on`, every other bit kept. */
  function SetLowBit(w: Word, on: bool): (r: Word)
  {
    if on then w | 1 else w & !1
  }

  /** Bit 0 becomes `on`; every other bit is kept. */
  lemma SetLowBitBits(w: Word, on: bool)
    ensures LowBit(SetLowBit(w, on)) == on
    ensures SetLowBit(w, on) & !1 == w & !1
  {
  }

  /** Forcing bit 0 to the value it already has changes nothing. */
  lemma SetLowBitUnchanged(w: Word, on: bool)
    ensures LowBit(w) == on ==> SetLowBit(w, on) == w
  {
  }

  /** `w` with the low bits selected by `mask` cleared (aligning an address down). */
  function AlignDown(w: Word, mask: Word): (r: Word)
    ensures r & mask == 0
    ensures r <= w
    ensures r | (w & mask) == w
  {
    w & !mask
  }

  // ---------------------------------------------------------------------------
  // Little-endian memory

  function Pow256(n: nat): (p: nat)
    ensures p >= 1
  {
    if n == 0 then 1 else 0x100 * Pow256(n - 1)
  }

  /** The unsigned number held by a run of little-endian bytes. */
  function NatOf(b: seq<Byte>): (x: nat)
    ensures x < Pow256(|b|)
  {
    if b == [] then 0 else b[0] + 0x100 * NatOf(b[1..])
  }

  /** The `n` little-endian bytes of `x` (its value modulo 256^n). */
  function BytesOf(x: nat, n: nat): (b: seq<Byte>)
    ensures |b| == n
  {
    if n == 0 then [] else [x % 0x100] + BytesOf(x / 0x100, n - 1)
  }

  /** Storing a number in enough bytes and loading it back gives the number. */
  lemma {:induction false} NatOfBytesOf(x: nat, n: nat)
    requires x < Pow256(n)
    ensures NatOf(BytesOf(x, n)) == x
  {
    if n > 0 {
      NatOfBytesOf(x / 0x100, n - 1);
    }
  }

  /** Loading bytes and storing the number back gives the bytes. */
  lemma {:induction false} BytesOfNatOf(b: seq<Byte>)
    ensures BytesOf(NatOf(b), |b|) == b
  {
    if b != [] {
      BytesOfNatOf(b[1..]);
      assert (b[0] + 0x100 * NatOf(b[1..])) / 0x100 == NatOf(b[1..]);
    }
  }

  /** The unsigned value of the little-endian word stored at byte offset `o`. */
  function LoadNat(s: seq<Byte>, o: nat): (x: U32)
    requires o + 4 <= |s|
  {
    s[o] as int + 0x100 * s[o + 1] as int + 0x1_0000 * s[o + 2] as int + 0x100_0000 * s[o + 3] as int
  }

  /** A loaded word is the number its four bytes hold. */
  lemma LoadNatIsNatOf(s: seq<Byte>, o: nat)
    requires o + 4 <= |s|
    ensures LoadNat(s, o) == NatOf(s[o..o + 4])
  {
    var b := s[o..o + 4];
    assert b[1..][1..][1..][1..] == [];
    assert NatOf(b[3..]) == b[3] as int;
    assert NatOf(b[2..]) == b[2] as int + 0x100 * b[3] as int;
    assert NatOf(b[1..]) == b[1] as int + 0x100 * NatOf(b[2..]);
  }

  /** The quads held by a run of bytes, eight bytes each. */
  function QuadsOf(b: seq<Byte>): (r: seq<Quad>)
    requires |b| % 8 == 0
    ensures 8 * |r| == |b|
  {
    assert Pow256(8) == 0x1_0000_0000_0000_0000;
    if b == [] then [] else [NatOf(b[..8]) as Quad] + QuadsOf(b[8..])
  }

  /** The little-endian image of a run of quads. */
  function QuadsBytes(qs: seq<Quad>): (b: seq<Byte>)
    ensures |b| == 8 * |qs|
  {
    if qs == [] then [] else BytesOf(qs[0], 8) + QuadsBytes(qs[1..])
  }

  /** Storing a run of quads and loading it back gives the run. */
  lemma {:induction false} QuadsRoundTrip(qs: seq<Quad>)
    ensures QuadsOf(QuadsBytes(qs)) == qs
  {
    if qs != [] {
      var b := QuadsBytes(qs);
      assert b[..8] == BytesOf(qs[0], 8);
      assert b[8..] == QuadsBytes(qs[1..]);
      assert Pow256(8) == 0x1_0000_0000_0000_0000;
      NatOfBytesOf(qs[0], 8);
      QuadsRoundTrip(qs[1..]);
    }
  }

  /** Loading a run of quads and storing it back gives the bytes. */
  lemma {:induction false} QuadsBytesOf(b: seq<Byte>)
    requires |b| % 8 == 0
    ensures QuadsBytes(QuadsOf(b)) == b
  {
    if b != [] {
      BytesOfNatOf(b[..8]);
      QuadsBytesOf(b[8..]);
      assert b == b[..8] + b[8..];
    }
  }
}

/** Status codes, exception codes, CONTEXT flags and host signal numbers used by the
    signal layer, with the values of the Windows and Linux/ARM headers. */
module NtDefs {
  import opened Words

  // NTSTATUS values
  const STATUS_SUCCESS: Word := 0
  const STATUS_INVALID_PARAMETER: Word := 0xc000_000d
  const STATUS_INVALID_DISPOSITION: Word := 0xc000_0026
  const STATUS_STACK_OVERFLOW: Word := 0xc000_00fd
  const STATUS_NO_CALLBACK_ACTIVE: Word := 0xc000_0258
  const DBG_EXCEPTION_HANDLED: Word := 0x0001_0001
  const DBG_CONTINUE: Word := 0x0001_0002

  // exception codes
  const EXCEPTION_DATATYPE_MISALIGNMENT: Word := 0x8000_0002
  const EXCEPTION_BREAKPOINT: Word := 0x8000_0003
  const EXCEPTION_SINGLE_STEP: Word := 0x8000_0004
  const EXCEPTION_WINE_ASSERTION: Word := 0x8000_0100
  const EXCEPTION_ACCESS_VIOLATION: Word := 0xc000_0005
  const EXCEPTION_ILLEGAL_INSTRUCTION: Word := 0xc000_001d
  const EXCEPTION_ARRAY_BOUNDS_EXCEEDED: Word := 0xc000_008c
  const EXCEPTION_FLT_DIVIDE_BY_ZERO: Word := 0xc000_008e
  const EXCEPTION_FLT_INEXACT_RESULT: Word := 0xc000_008f
  const EXCEPTION_FLT_INVALID_OPERATION: Word := 0xc000_0090
  const EXCEPTION_FLT_OVERFLOW: Word := 0xc000_0091
  const EXCEPTION_FLT_UNDERFLOW: Word := 0xc000_0093
  const EXCEPTION_INT_DIVIDE_BY_ZERO: Word := 0xc000_0094
  const EXCEPTION_INT_OVERFLOW: Word := 0xc000_0095
  const EH_NONCONTINUABLE: Word := 1

  // ARM CONTEXT flags
  const CONTEXT_ARM: Word := 0x0020_0000
  const CONTEXT_CONTROL: Word := 0x0020_0001
  const CONTEXT_INTEGER: Word := 0x0020_0002
  const CONTEXT_FLOATING_POINT: Word := 0x0020_0004
  const CONTEXT_DEBUG_REGISTERS: Word := 0x0020_0008
  const CONTEXT_FULL: Word := 0x0020_0007
  const CONTEXT_ALL: Word := 0x0020_000f
  const CONTEXT_UNWOUND_TO_CALL: Word := 0x2000_0000

  /** Size of the ARM CONTEXT structure in bytes. */
  const CONTEXT_SIZE: Word := 0x1a0

  // Linux/ARM signal numbers and si_code values
  const SIGILL: int := 4
  const SIGTRAP: int := 5
  const SIGABRT: int := 6
  const SIGBUS: int := 7
  const SIGFPE: int := 8
  const SIGSEGV: int := 11
  const TRAP_BRKPT: int := 1
  const TRAP_TRACE: int := 2
  const FPE_INTDIV: Word := 1
  const FPE_INTOVF: Word := 2
  const FPE_FLTDIV: Word := 3
  const FPE_FLTOVF: Word := 4
  const FPE_FLTUND: Word := 5
  const FPE_FLTRES: Word := 6
  const FPE_FLTINV: Word := 7
  const FPE_FLTSUB: Word := 8
}
