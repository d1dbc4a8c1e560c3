// The context translator: the host signal context (ucontext_t) on one side, the
// Windows ARM CONTEXT on the other, and the chain of {magic, size} records in
// uc_regspace that holds the VFP registers.

module ArmContext {
  import opened Words
  import opened NtDefs

  /** The Windows ARM CONTEXT, restricted to the fields this layer reads or writes. */
  datatype Context = Context(
    flags: Word,
    r: GpRegs,      // R0..R12
    sp: Word,
    lr: Word,
    pc: Word,       // bit 0 set for Thumb code
    cpsr: Word,
    fpscr: U32,
    d: FpRegs)      // D0..D31

  const EmptyContext := Context(0, ZeroGp, 0, 0, 0, 0, 0, ZeroFp)

  /** The register part of uc_mcontext: arm_r0..arm_r10, arm_fp and arm_ip in `r`. */
  datatype MContext = MContext(
    r: GpRegs,
    sp: Word,
    lr: Word,
    pc: Word,
    cpsr: Word,
    trapNo: Word,
    errorCode: Word)

  /** Tag of the VFP record in uc_regspace. */
  const VFP_MAGIC: nat := 0x5646_5001
  /** Bytes of a record header {magic, size}. */
  const HEADER_BYTES: nat := 8
  /** Bytes of the fpregs[32] array that follows the VFP header. */
  const FPREGS_BYTES: nat := 256
  /** Bytes of a VFP record up to and including fpscr. */
  const VFP_FRAME_BYTES: nat := HEADER_BYTES + FPREGS_BYTES + 4

  // ---------------------------------------------------------------------------
  // The {magic, size} record chain

  /** Offset of the first record tagged `magic` at or after `pos`. The scan stops at a
      zero magic, a zero size, or when a header would not fit before the end of the
      region; every size is a positive byte count, so the distance to the end shrinks. */
  function FindRecord(s: seq<Byte>, magic: nat, pos: nat): (r: Option<nat>)
    ensures r.Some? ==> pos <= r.value && r.value + HEADER_BYTES <= |s|
    ensures r.Some? ==> LoadNat(s, r.value) == magic && LoadNat(s, r.value + 4) != 0
    decreases |s| - pos
  {
    if pos + HEADER_BYTES > |s| || LoadNat(s, pos) == 0 || LoadNat(s, pos + 4) == 0 then None
    else if LoadNat(s, pos) == magic then Some(pos)
    else FindRecord(s, magic, pos + LoadNat(s, pos + 4))
  }

  /** The record found does not depend on the bytes after its header. */
  lemma {:induction false} FindRecordPrefix(s: seq<Byte>, t: seq<Byte>, magic: nat, pos: nat, o: nat)
    requires |s| == |t|
    requires FindRecord(s, magic, pos) == Some(o)
    requires forall k :: 0 <= k < o + HEADER_BYTES ==> s[k] == t[k]
    ensures FindRecord(t, magic, pos) == Some(o)
    decreases |s| - pos
  {
    HeaderSame(s, t, pos, o + HEADER_BYTES);
    if LoadNat(s, pos) != magic {
      FindRecordPrefix(s, t, magic, pos + LoadNat(s, pos + 4), o);
    }
  }

  /** Two regions that agree below `n` hold the same header at any `pos` with pos + 8 <= n. */
  lemma HeaderSame(s: seq<Byte>, t: seq<Byte>, pos: nat, n: nat)
    requires pos + HEADER_BYTES <= n <= |s| == |t|
    requires forall k :: 0 <= k < n ==> s[k] == t[k]
    ensures LoadNat(s, pos) == LoadNat(t, pos) && LoadNat(s, pos + 4) == LoadNat(t, pos + 4)
  {
    assert s[pos..pos + 4] == t[pos..pos + 4];
    assert s[pos + 4..pos + 8] == t[pos + 4..pos + 8];
  }

  /** Whether a record starts at `o` in the chain that begins at `pos`: every header from
      `pos` up to `o` fits in the region and has a nonzero magic and size, and each record
      follows the previous one by its size. */
  predicate InChain(s: seq<Byte>, pos: nat, o: nat)
    ensures InChain(s, pos, o) ==> pos <= o && o + HEADER_BYTES <= |s|
    decreases |s| - pos
  {
    && pos + HEADER_BYTES <= |s| && LoadNat(s, pos) != 0 && LoadNat(s, pos + 4) != 0
    && (o == pos || InChain(s, pos + LoadNat(s, pos + 4), o))
  }

  /** The record found is in the chain, and no record before it in the chain carries the
      magic: the scan returns the first match. */
  lemma {:induction false} FindRecordFirst(s: seq<Byte>, magic: nat, pos: nat)
    requires FindRecord(s, magic, pos).Some?
    ensures var o := FindRecord(s, magic, pos).value;
      && InChain(s, pos, o)
      && forall p: nat :: InChain(s, pos, p) && p < o ==> LoadNat(s, p) != magic
    decreases |s| - pos
  {
    var o := FindRecord(s, magic, pos).value;
    if LoadNat(s, pos) != magic {
      var next := pos + LoadNat(s, pos + 4);
      FindRecordFirst(s, magic, next);
      forall p | InChain(s, pos, p) && p < o
        ensures LoadNat(s, p) != magic
      {
        if p != pos {
          assert InChain(s, next, p);
        }
      }
    }
  }

  /** When the scan finds nothing, no record of the chain carries the magic. */
  lemma {:induction false} FindRecordAbsent(s: seq<Byte>, magic: nat, pos: nat)
    requires FindRecord(s, magic, pos).None?
    ensures forall p: nat :: InChain(s, pos, p) ==> LoadNat(s, p) != magic
    decreases |s| - pos
  {
    if pos + HEADER_BYTES <= |s| && LoadNat(s, pos) != 0 && LoadNat(s, pos + 4) != 0 {
      var next := pos + LoadNat(s, pos + 4);
      FindRecordAbsent(s, magic, next);
      forall p | InChain(s, pos, p)
        ensures LoadNat(s, p) != magic
      {
        if p != pos {
          assert InChain(s, next, p);
        }
      }
    }
  }

  /** The scan stops without a result at a zero magic or a zero size, and when no header fits. */
  lemma ScanStops(s: seq<Byte>, magic: nat, pos: nat)
    requires pos + HEADER_BYTES > |s| || LoadNat(s, pos) == 0 || LoadNat(s, pos + 4) == 0
    ensures FindRecord(s, magic, pos) == None
  {
  }

  // ---------------------------------------------------------------------------
  // The scan as get_extended_sigcontext writes it

  /** The scan with get_extended_sigcontext's loop test, which only asks that a record
      START before the end of the ucontext: a header starting fewer than 8 bytes before
      the end of the region is read from the memory after it. `mem` is the region (its
      first `n` bytes) followed by that memory. */
  function FindRecordAsWritten(mem: seq<Byte>, n: nat, magic: nat, pos: nat): (r: Option<nat>)
    requires n + HEADER_BYTES <= |mem|
    ensures r.Some? ==> pos <= r.value < n && LoadNat(mem, r.value) == magic
    decreases n - pos
  {
    if pos >= n || LoadNat(mem, pos) == 0 || LoadNat(mem, pos + 4) == 0 then None
    else if LoadNat(mem, pos) == magic then Some(pos)
    else FindRecordAsWritten(mem, n, magic, pos + LoadNat(mem, pos + 4))
  }

  /** A 12-byte region whose second header starts 4 bytes before its end: the as-written
      scan's answer depends on the bytes after the region, FindRecord finds nothing. */
  lemma AsWrittenReadsPastRegion()
    ensures var region: seq<Byte> := [1, 0, 0, 0, 8, 0, 0, 0, 0x01, 0x50, 0x46, 0x56];
      && FindRecordAsWritten(region + [0x04, 0x01, 0, 0, 0, 0, 0, 0], 12, VFP_MAGIC, 0) == Some(8)
      && FindRecordAsWritten(region + [0, 0, 0, 0, 0, 0, 0, 0], 12, VFP_MAGIC, 0) == None
      && FindRecord(region, VFP_MAGIC, 0) == None
  {
    var region: seq<Byte> := [1, 0, 0, 0, 8, 0, 0, 0, 0x01, 0x50, 0x46, 0x56];
    var m1 := region + [0x04, 0x01, 0, 0, 0, 0, 0, 0];
    var m2 := region + [0, 0, 0, 0, 0, 0, 0, 0];
    assert LoadNat(m1, 0) == 1 && LoadNat(m1, 4) == 8 && LoadNat(m1, 8) == VFP_MAGIC && LoadNat(m1, 12) == 0x104;
    assert LoadNat(m2, 0) == 1 && LoadNat(m2, 4) == 8 && LoadNat(m2, 12) == 0;
    assert LoadNat(region, 0) == 1 && LoadNat(region, 4) == 8;
  }

  /** The step to the next record as get_extended_sigcontext computes it: pointer
      arithmetic on 32-bit addresses, which wraps. */
  function NextRecordAsWritten(addr: U32, size: U32): (next: U32)
    ensures addr + size < 0x1_0000_0000 ==> next == addr + size
    ensures addr + size >= 0x1_0000_0000 ==> next == addr + size - 0x1_0000_0000
  {
    (addr + size) % 0x1_0000_0000
  }

  /** One turn of get_extended_sigcontext's loop on 32-bit addresses, for the region `mem`
      that starts at address `base` and ends at `end`: the header at `ctx` passes the loop
      test and does not carry `magic`, so the loop goes on. */
  predicate WalksOnAsWritten(mem: seq<Byte>, base: U32, end: U32, ctx: U32, magic: nat)
  {
    && ctx < end && base <= ctx && ctx - base + HEADER_BYTES <= |mem|
    && LoadNat(mem, ctx - base) != 0 && LoadNat(mem, ctx - base + 4) != 0
    && LoadNat(mem, ctx - base) != magic
  }

  /** The address the loop moves to from the header at `ctx`. */
  function NextAsWritten(mem: seq<Byte>, base: U32, ctx: U32): (next: U32)
    requires base <= ctx && ctx - base + HEADER_BYTES <= |mem|
  {
    NextRecordAsWritten(ctx, LoadNat(mem, ctx - base + 4))
  }

  /** Two records of sizes 8 and 0xfffffff8 at the start of a 16-byte region: both pass
      the loop test without carrying the VFP magic, and the 32-bit step from the second
      leads back to the first, so the loop never ends. */
  lemma AsWrittenWalkCycles(base: U32)
    requires base <= 0xffff_ffef
    ensures var mem: seq<Byte> := [1, 0, 0, 0, 8, 0, 0, 0, 1, 0, 0, 0, 0xf8, 0xff, 0xff, 0xff];
      && WalksOnAsWritten(mem, base, base + 16, base, VFP_MAGIC)
      && NextAsWritten(mem, base, base) == base + 8
      && WalksOnAsWritten(mem, base, base + 16, base + 8, VFP_MAGIC)
      && NextAsWritten(mem, base, base + 8) == base
  {
    var mem: seq<Byte> := [1, 0, 0, 0, 8, 0, 0, 0, 1, 0, 0, 0, 0xf8, 0xff, 0xff, 0xff];
    assert LoadNat(mem, 0) == 1 && LoadNat(mem, 4) == 8;
    assert LoadNat(mem, 8) == 1 && LoadNat(mem, 12) == 0xffff_fff8;
  }

  /** On the same two records FindRecord, whose offsets only grow, stops. */
  lemma FindRecordStopsOnWrap()
    ensures FindRecord([1, 0, 0, 0, 8, 0, 0, 0, 1, 0, 0, 0, 0xf8, 0xff, 0xff, 0xff], VFP_MAGIC, 0) == None
  {
    var s: seq<Byte> := [1, 0, 0, 0, 8, 0, 0, 0, 1, 0, 0, 0, 0xf8, 0xff, 0xff, 0xff];
    assert LoadNat(s, 0) == 1 && LoadNat(s, 4) == 8;
    assert LoadNat(s, 8) == 1 && LoadNat(s, 12) == 0xffff_fff8;
  }

  /** The VFP record as save_fpu takes it: wherever its header is found, without asking
      that fpregs and fpscr fit in the region. */
  function VfpBlockAsWritten(s: seq<Byte>): (r: Option<nat>)
    ensures r.Some? ==> r.value + HEADER_BYTES <= |s| && LoadNat(s, r.value) == VFP_MAGIC
  {
    FindRecord(s, VFP_MAGIC, 0)
  }

  /** A VFP header in the last 8 bytes of a region is taken by the as-written lookup
      although its 260-byte payload lies past the end; VfpBlock refuses it. */
  lemma AsWrittenVfpOverruns()
    ensures var region: seq<Byte> := [0x01, 0x50, 0x46, 0x56, 0x0c, 0x01, 0, 0];
      && VfpBlockAsWritten(region) == Some(0) && 0 + VFP_FRAME_BYTES > |region|
      && VfpBlock(region) == None
  {
    var region: seq<Byte> := [0x01, 0x50, 0x46, 0x56, 0x0c, 0x01, 0, 0];
    assert LoadNat(region, 0) == VFP_MAGIC && LoadNat(region, 4) == 0x10c;
  }

  /** Offset of the VFP record when it is present and lies wholly inside the region. */
  function VfpBlock(s: seq<Byte>): (r: Option<nat>)
    ensures r.Some? ==> r.value + VFP_FRAME_BYTES <= |s| && LoadNat(s, r.value) == VFP_MAGIC
    ensures r.Some? <==> FindRecord(s, VFP_MAGIC, 0).Some? && FindRecord(s, VFP_MAGIC, 0).value + VFP_FRAME_BYTES <= |s|
  {
    match FindRecord(s, VFP_MAGIC, 0)
    case Some(o) => if o + VFP_FRAME_BYTES <= |s| then Some(o) else None
    case None => None
  }

  /** The 260 bytes of a VFP record after its header: fpregs[32], then fpscr. */
  function VfpImage(c: Context): (b: seq<Byte>)
    ensures |b| == FPREGS_BYTES + 4
  {
    QuadsBytes(c.d) + BytesOf(c.fpscr, 4)
  }

  // ---------------------------------------------------------------------------
  // save_context / restore_context as record maps

  /** save_fpu: the VFP registers and fpscr of the record, or `c` untouched without one. */
  function SaveFpu(c: Context, s: seq<Byte>): Context
  {
    match VfpBlock(s)
    case None => c
    case Some(o) =>
      var fp := QuadsOf(s[o + HEADER_BYTES..o + HEADER_BYTES + FPREGS_BYTES]);
      c.(d := fp, fpscr := LoadNat(s, o + HEADER_BYTES + FPREGS_BYTES))
  }

  /** save_context: the CONTEXT captured from the signal context, starting from `c`. */
  function SaveContext(mc: MContext, s: seq<Byte>, c: Context): Context
  {
    SaveFpu(c.(flags := CONTEXT_FULL, r := mc.r, sp := mc.sp, lr := mc.lr, pc := ThumbPc(mc.pc, mc.cpsr), cpsr := mc.cpsr), s)
  }

  /** restore_context, integer and control part: the CPSR Thumb bit follows Pc bit 0. */
  function RestoreRegs(mc: MContext, c: Context): MContext
  {
    mc.(r := c.r, sp := c.sp, lr := c.lr, pc := c.pc, cpsr := WithThumb(c.cpsr, LowBit(c.pc)))
  }

  /** restore_fpu: the region with the VFP record rewritten, or unchanged without one. */
  function RestoreFpu(s: seq<Byte>, c: Context): (t: seq<Byte>)
    ensures |t| == |s|
    ensures VfpBlock(s).None? ==> t == s
    ensures VfpBlock(s).Some? ==>
              var o := VfpBlock(s).value;
              && t[..o + HEADER_BYTES] == s[..o + HEADER_BYTES]
              && t[o + HEADER_BYTES..o + VFP_FRAME_BYTES] == VfpImage(c)
              && t[o + VFP_FRAME_BYTES..] == s[o + VFP_FRAME_BYTES..]
  {
    match VfpBlock(s)
    case None => s
    case Some(o) => s[..o + HEADER_BYTES] + VfpImage(c) + s[o + VFP_FRAME_BYTES..]
  }

  /** Rewriting the VFP record keeps the chain: the same record is found afterwards. */
  lemma RestoreFpuKeepsBlock(s: seq<Byte>, c: Context)
    ensures VfpBlock(RestoreFpu(s, c)) == VfpBlock(s)
  {
    match VfpBlock(s)
    case None =>
    case Some(o) =>
      var t := RestoreFpu(s, c);
      assert forall k :: 0 <= k < o + HEADER_BYTES ==> s[k] == t[k];
      FindRecordPrefix(s, t, VFP_MAGIC, 0, o);
  }

  /** The VFP registers and Fpscr read back from a region whose VFP record holds the image of `c`. */
  lemma SaveFpuOfImage(t: seq<Byte>, c: Context, base: Context, o: nat)
    requires VfpBlock(t) == Some(o)
    requires t[o + HEADER_BYTES..o + VFP_FRAME_BYTES] == VfpImage(c)
    ensures SaveFpu(base, t).d == c.d && SaveFpu(base, t).fpscr == c.fpscr
  {
    var img := t[o + HEADER_BYTES..o + VFP_FRAME_BYTES];
    assert t[o + HEADER_BYTES..o + HEADER_BYTES + FPREGS_BYTES] == img[..FPREGS_BYTES];
    ImageDecodes(c);
    LoadNatIsNatOf(t, o + HEADER_BYTES + FPREGS_BYTES);
    assert t[o + HEADER_BYTES + FPREGS_BYTES..o + VFP_FRAME_BYTES] == img[FPREGS_BYTES..];
  }

  /** The image of a CONTEXT decodes back to its VFP registers and Fpscr. */
  lemma ImageDecodes(c: Context)
    ensures QuadsOf(VfpImage(c)[..FPREGS_BYTES]) == c.d
    ensures NatOf(VfpImage(c)[FPREGS_BYTES..]) == c.fpscr
  {
    var img := VfpImage(c);
    assert img[..FPREGS_BYTES] == QuadsBytes(c.d);
    assert img[FPREGS_BYTES..] == BytesOf(c.fpscr, 4);
    QuadsRoundTrip(c.d);
    assert Pow256(4) == 0x1_0000_0000;
    NatOfBytesOf(c.fpscr, 4);
  }

  /** A VFP payload re-encoded from its own decoding is the payload. */
  lemma ImageOfPayload(b: seq<Byte>)
    requires |b| == FPREGS_BYTES + 4
    ensures QuadsBytes(QuadsOf(b[..FPREGS_BYTES])) + BytesOf(LoadNat(b, FPREGS_BYTES), 4) == b
  {
    QuadsBytesOf(b[..FPREGS_BYTES]);
    BytesOfNatOf(b[FPREGS_BYTES..]);
    LoadNatIsNatOf(b, FPREGS_BYTES);
    assert b[FPREGS_BYTES..FPREGS_BYTES + 4] == b[FPREGS_BYTES..];
    assert b[..FPREGS_BYTES] + b[FPREGS_BYTES..] == b;
  }

  /** restore_context then save_context gives back R0-R12, Sp, Lr and Pc, ContextFlags =
      CONTEXT_FULL, the Cpsr with its Thumb bit replaced by Pc bit 0, and the VFP
      registers and Fpscr exactly when the region holds a VFP record. */
  lemma RestoreThenSave(mc: MContext, s: seq<Byte>, c: Context, base: Context)
    ensures var c2 := SaveContext(RestoreRegs(mc, c), RestoreFpu(s, c), base);
      && c2.flags == CONTEXT_FULL
      && c2.r == c.r && c2.sp == c.sp && c2.lr == c.lr && c2.pc == c.pc
      && c2.cpsr == WithThumb(c.cpsr, LowBit(c.pc))
      && (VfpBlock(s).Some? ==> c2.d == c.d && c2.fpscr == c.fpscr)
      && (VfpBlock(s).None? ==> c2.d == base.d && c2.fpscr == base.fpscr)
  {
    var t := RestoreFpu(s, c);
    RestoreFpuKeepsBlock(s, c);
    var mc2 := RestoreRegs(mc, c);
    assert ThumbSet(mc2.cpsr) == LowBit(c.pc);
    assert ThumbPc(mc2.pc, mc2.cpsr) == c.pc;
    var c1 := base.(flags := CONTEXT_FULL, r := mc2.r, sp := mc2.sp, lr := mc2.lr, pc := c.pc, cpsr := mc2.cpsr);
    assert SaveContext(mc2, t, base) == SaveFpu(c1, t);
    match VfpBlock(s)
    case None =>
    case Some(o) =>
      assert t[o + HEADER_BYTES..o + VFP_FRAME_BYTES] == VfpImage(c);
      SaveFpuOfImage(t, c, c1, o);
  }

  /** save_context then restore_context leaves the region as it was and the registers
      as they were, except that in Thumb state Pc gains bit 0, and the Thumb bit is
      set when Pc bit 0 was. */
  lemma SaveThenRestore(mc: MContext, s: seq<Byte>, base: Context)
    ensures var c := SaveContext(mc, s, base);
      && RestoreFpu(s, c) == s
      && RestoreRegs(mc, c) == mc.(pc := ThumbPc(mc.pc, mc.cpsr), cpsr := WithThumb(mc.cpsr, ThumbSet(mc.cpsr) || LowBit(mc.pc)))
  {
    SaveThenRestoreFpu(mc, s, base);
    SaveFpuKeepsRegisters(SaveContext(mc, s, base), base.(flags := CONTEXT_FULL, r := mc.r, sp := mc.sp, lr := mc.lr, pc := ThumbPc(mc.pc, mc.cpsr), cpsr := mc.cpsr), s);
  }

  /** save_fpu touches only the VFP registers and Fpscr. */
  lemma SaveFpuKeepsRegisters(saved: Context, c: Context, s: seq<Byte>)
    requires saved == SaveFpu(c, s)
    ensures saved.flags == c.flags && saved.r == c.r && saved.sp == c.sp && saved.lr == c.lr
    ensures saved.pc == c.pc && saved.cpsr == c.cpsr
  {
  }

  /** Writing back the VFP record just read leaves the region as it was. */
  lemma SaveThenRestoreFpu(mc: MContext, s: seq<Byte>, base: Context)
    ensures RestoreFpu(s, SaveContext(mc, s, base)) == s
  {
    var c := SaveContext(mc, s, base);
    match VfpBlock(s)
    case None =>
    case Some(o) =>
      var b := s[o + HEADER_BYTES..o + VFP_FRAME_BYTES];
      assert b[..FPREGS_BYTES] == s[o + HEADER_BYTES..o + HEADER_BYTES + FPREGS_BYTES];
      assert LoadNat(b, FPREGS_BYTES) == LoadNat(s, o + HEADER_BYTES + FPREGS_BYTES);
      ImageOfPayload(b);
      assert VfpImage(c) == b;
      Splice(s, o + HEADER_BYTES, o + VFP_FRAME_BYTES);
  }

  /** A region is its three consecutive pieces. */
  lemma Splice(s: seq<Byte>, a: nat, b: nat)
    requires a <= b <= |s|
    ensures s[..a] + s[a..b] + s[b..] == s
  {
    assert s[..a] + s[a..b] == s[..b];
  }

  // ---------------------------------------------------------------------------
  // The host signal context, updated in place by the handlers

  class UContext {
    var mc: MContext
    /** uc_regspace, the block of extended register records. */
    const regspace: array<Byte>

    constructor (m: MContext, space: seq<Byte>)
      ensures mc == m && regspace[..] == space && fresh(regspace)
    {
      mc := m;
      regspace := new Byte[|space|](k requires 0 <= k < |space| => space[k]);
    }

    /** get_extended_sigcontext: walks the record chain from the start of uc_regspace. */
    method GetExtendedSigcontext(magic: nat) returns (r: Option<nat>)
      ensures r == FindRecord(regspace[..], magic, 0)
    {
      var pos: nat := 0;
      while pos + HEADER_BYTES <= regspace.Length
        invariant FindRecord(regspace[..], magic, pos) == FindRecord(regspace[..], magic, 0)
        decreases regspace.Length - pos
      {
        var tag := LoadNat(regspace[..], pos);
        var size := LoadNat(regspace[..], pos + 4);
        if tag == 0 || size == 0 {
          return None;
        }
        if tag == magic {
          return Some(pos);
        }
        pos := pos + size;
      }
      return None;
    }

    /** save_context: the CONTEXT captured from this signal context, starting from `c`. */
    method Save(c: Context) returns (saved: Context)
      ensures saved == SaveContext(mc, regspace[..], c)
    {
      saved := c.(flags := CONTEXT_FULL, r := mc.r, sp := mc.sp, lr := mc.lr, pc := ThumbPc(mc.pc, mc.cpsr), cpsr := mc.cpsr);
      var found := GetExtendedSigcontext(VFP_MAGIC);
      if found.Some? && found.value + VFP_FRAME_BYTES <= regspace.Length {
        var o := found.value;
        var s := regspace[..];
        saved := saved.(d := QuadsOf(s[o + HEADER_BYTES..o + HEADER_BYTES + FPREGS_BYTES]),
                        fpscr := LoadNat(s, o + HEADER_BYTES + FPREGS_BYTES));
      }
    }

    /** restore_context: writes `c` back into this signal context. */
    method Restore(c: Context)
      modifies this, regspace
      ensures mc == RestoreRegs(old(mc), c)
      ensures regspace[..] == RestoreFpu(old(regspace[..]), c)
    {
      mc := RestoreRegs(mc, c);
      var found := GetExtendedSigcontext(VFP_MAGIC);
      if found.Some? && found.value + VFP_FRAME_BYTES <= regspace.Length {
        var o := found.value;
        var updated := regspace[..o + HEADER_BYTES] + VfpImage(c) + regspace[o + VFP_FRAME_BYTES..];
        forall k | 0 <= k < regspace.Length {
          regspace[k] := updated[k];
        }
        assert regspace[..] == updated;
      }
    }
  }
}
