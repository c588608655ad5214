/** The byte code of section 7.23 of DWARF 4: what a producer writes, and that decoding undoes it. */
module CallFrameCode {
  import opened MachineInt
  import opened Bytes
  import opened Outcome
  import opened Leb128
  import opened CallFrame
  import opened FrameRules
  import opened FrameOffsets
  import opened CallFrameTable
  import opened Pointers

  /** An operand in the low bits of the opcode. */
  type u6 = n: int | 0 <= n < 64

  /** The instructions with their operands as they are written. */
  datatype Op =
    | OpAdvanceLoc(step: u6)
    | OpOffset(low: u6, n: u64)
    | OpRestore(low: u6)
    | OpNop
    | OpSetLoc(address: u64)
    | OpAdvanceLoc1(step1: u8)
    | OpAdvanceLoc2(step2: u16)
    | OpAdvanceLoc4(step4: u32)
    | OpOffsetExtended(reg: u64, n: u64)
    | OpRestoreExtended(reg: u64)
    | OpUndefined(reg: u64)
    | OpSameValue(reg: u64)
    | OpRegister(reg: u64, from: u64)
    | OpRememberState
    | OpRestoreState
    | OpDefCfa(reg: u64, n: u64)
    | OpDefCfaRegister(reg: u64)
    | OpDefCfaOffset(n: u64)
    | OpExpression(reg: u64, block: seq<u8>)
    | OpOffsetExtendedSf(reg: u64, sf: i64)
    | OpDefCfaSf(reg: u64, sf: i64)
    | OpDefCfaOffsetSf(sf: i64)
    | OpValOffset(reg: u64, n: u64)
    | OpValOffsetSf(reg: u64, sf: i64)
    | OpValExpression(reg: u64, block: seq<u8>)
    | OpArgsSize(n: u64)

  /** The instruction meant, its offsets factored as section 6.4.2 has them. */
  function Meaning(op: Op, o: Options): Instr {
    match op
    case OpAdvanceLoc(step) => Advance(step * o.codeAlign as int)
    case OpOffset(low, n) => Offset(low, n * o.dataAlign as int)
    case OpRestore(low) => Restore(low)
    case OpNop => Nop
    case OpSetLoc(address) => SetLoc(ToI64(address))
    case OpAdvanceLoc1(step) => Advance(step * o.codeAlign as int)
    case OpAdvanceLoc2(step) => Advance(step * o.codeAlign as int)
    case OpAdvanceLoc4(step) => Advance(step * o.codeAlign as int)
    case OpOffsetExtended(reg, n) => Offset(reg, n * o.dataAlign as int)
    case OpRestoreExtended(reg) => Restore(reg)
    case OpUndefined(reg) => Undefined(reg)
    case OpSameValue(reg) => SameValue(reg)
    case OpRegister(reg, from) => Register(reg, from)
    case OpRememberState => RememberState
    case OpRestoreState => RestoreState
    case OpDefCfa(reg, n) => DefCfa(reg, n)
    case OpDefCfaRegister(reg) => DefCfaRegister(reg)
    case OpDefCfaOffset(n) => DefCfaOffset(n)
    case OpExpression(reg, _) => Expression(reg)
    case OpOffsetExtendedSf(reg, sf) => Offset(reg, sf * o.dataAlign as int)
    case OpDefCfaSf(reg, sf) => DefCfa(reg, sf * o.dataAlign as int)
    case OpDefCfaOffsetSf(sf) => DefCfaOffset(sf * o.dataAlign as int)
    case OpValOffset(reg, n) => ValOffset(reg, n * o.dataAlign as int)
    case OpValOffsetSf(reg, sf) => ValOffset(reg, sf * o.dataAlign as int)
    case OpValExpression(reg, _) => ValExpression(reg)
    case OpArgsSize(_) => ArgsSize
  }

  /** The operands as the signed 64-bit numbers the source keeps them in. */
  function Narrowed(i: Instr): Instr {
    match i
    case DefCfa(reg, off) => DefCfa(ToI64(reg), ToI64(off))
    case DefCfaRegister(reg) => DefCfaRegister(ToI64(reg))
    case DefCfaOffset(off) => DefCfaOffset(ToI64(off))
    case Offset(reg, off) => Offset(ToI64(reg), ToI64(off))
    case ValOffset(reg, off) => ValOffset(ToI64(reg), ToI64(off))
    case Undefined(reg) => Undefined(ToI64(reg))
    case SameValue(reg) => SameValue(ToI64(reg))
    case Restore(reg) => Restore(ToI64(reg))
    case Register(reg, from) => Register(ToI64(reg), ToI64(from))
    case Expression(reg) => Expression(ToI64(reg))
    case ValExpression(reg) => ValExpression(ToI64(reg))
    case _ => i
  }

  /** The opcode column of figure 40. */
  function Opcode(op: Op): u8 {
    match op
    case OpAdvanceLoc(step) => 0x40 + step
    case OpOffset(low, _) => 0x80 + low
    case OpRestore(low) => 0xC0 + low
    case OpNop => 0x00
    case OpSetLoc(_) => 0x01
    case OpAdvanceLoc1(_) => 0x02
    case OpAdvanceLoc2(_) => 0x03
    case OpAdvanceLoc4(_) => 0x04
    case OpOffsetExtended(_, _) => 0x05
    case OpRestoreExtended(_) => 0x06
    case OpUndefined(_) => 0x07
    case OpSameValue(_) => 0x08
    case OpRegister(_, _) => 0x09
    case OpRememberState => 0x0A
    case OpRestoreState => 0x0B
    case OpDefCfa(_, _) => 0x0C
    case OpDefCfaRegister(_) => 0x0D
    case OpDefCfaOffset(_) => 0x0E
    case OpExpression(_, _) => 0x10
    case OpOffsetExtendedSf(_, _) => 0x11
    case OpDefCfaSf(_, _) => 0x12
    case OpDefCfaOffsetSf(_) => 0x13
    case OpValOffset(_, _) => 0x14
    case OpValOffsetSf(_, _) => 0x15
    case OpValExpression(_, _) => 0x16
    case OpArgsSize(_) => 0x2E
  }

  /** The operand columns. */
  datatype Args =
    | NoArgs
    | FixedArg(v: u32, width: Width)
    | AddressArg(enc: u8, address: i64)
    | UlebArg(a: u64)
    | SlebArg(sf: i64)
    | UlebUleb(a: u64, b: u64)
    | UlebSleb(a: u64, sf: i64)
    | UlebBlock(a: u64, size: u64, block: seq<u8>)

  function ArgsOf(op: Op, enc: u8): Args {
    match op
    case OpOffset(_, n) => UlebArg(n)
    case OpSetLoc(address) => AddressArg(enc, ToI64(address))
    case OpAdvanceLoc1(step) => FixedArg(step, 1)
    case OpAdvanceLoc2(step) => FixedArg(step, 2)
    case OpAdvanceLoc4(step) => FixedArg(step, 4)
    case OpOffsetExtended(reg, n) => UlebUleb(reg, n)
    case OpRestoreExtended(reg) => UlebArg(reg)
    case OpUndefined(reg) => UlebArg(reg)
    case OpSameValue(reg) => UlebArg(reg)
    case OpRegister(reg, from) => UlebUleb(reg, from)
    case OpDefCfa(reg, n) => UlebUleb(reg, n)
    case OpDefCfaRegister(reg) => UlebArg(reg)
    case OpDefCfaOffset(n) => UlebArg(n)
    case OpExpression(reg, block) => UlebBlock(reg, |block| % TWO_64, block)
    case OpOffsetExtendedSf(reg, sf) => UlebSleb(reg, sf)
    case OpDefCfaSf(reg, sf) => UlebSleb(reg, sf)
    case OpDefCfaOffsetSf(sf) => SlebArg(sf)
    case OpValOffset(reg, n) => UlebUleb(reg, n)
    case OpValOffsetSf(reg, sf) => UlebSleb(reg, sf)
    case OpValExpression(reg, block) => UlebBlock(reg, |block| % TWO_64, block)
    case OpArgsSize(n) => UlebArg(n)
    case _ => NoArgs
  }

  function EncodeArgs(args: Args, leb: Leb): seq<u8> {
    match args
    case NoArgs => []
    case FixedArg(v, n) => Low(v, n)
    case AddressArg(enc, address) => EncodePointer(enc, address, leb)
    case UlebArg(a) => leb.uleb(a)
    case SlebArg(sf) => leb.sleb(sf)
    case UlebUleb(a, b) => leb.uleb(a) + leb.uleb(b)
    case UlebSleb(a, sf) => leb.uleb(a) + leb.sleb(sf)
    case UlebBlock(a, size, block) => leb.uleb(a) + (leb.uleb(size) + block)
  }

  function EncodeOps(ops: seq<Op>, leb: Leb, enc: u8): seq<u8> {
    if ops == [] then []
    else [Opcode(ops[0])] + EncodeArgs(ArgsOf(ops[0], enc), leb) + EncodeOps(ops[1..], leb, enc)
  }

  function Meanings(ops: seq<Op>, o: Options): seq<Instr> {
    if ops == [] then [] else [Narrowed(Meaning(ops[0], o))] + Meanings(ops[1..], o)
  }

  predicate Absolute(enc: u8) { KnownFormat(enc) && !Relative(enc) }

  /** Addresses are written absolutely; blocks are shorter than the address space. */
  predicate Writable(op: Op, enc: u8) {
    && (op.OpSetLoc? ==> Absolute(enc) && FitsFormat(enc, ToI64(op.address)))
    && (op.OpExpression? || op.OpValExpression? ==> |op.block| < TWO_63)
  }

  // --- reading operands back -----------------------------------------------------------------

  /** The encoders of section 7.6. */
  const SHORTEST := Leb((v: u64) => EncodeUleb(v), (v: i64) => EncodeSleb(v))

  lemma {:induction false} ShortestIsCorrect()
    ensures Correct(SHORTEST)
  {
    forall v: u64
      ensures IsUleb(SHORTEST.uleb(v), ToI64(v))
    {
      UlebIs(v, EncodeUleb(v));
    }
    forall v: i64
      ensures IsSleb(SHORTEST.sleb(v), v)
    {
      SlebIs(v, EncodeSleb(v));
    }
  }

  lemma {:induction false} EncodedHere(s: seq<u8>, pos: nat, end: nat, e: seq<u8>)
    requires Spans(s, pos, end, e) && EncodedLength(e) == Some(|e|)
    ensures ReadUlebAt(s, pos) == Ok((UlebValue(e), end)) && ReadSlebAt(s, pos) == Ok((SlebValue(e), end))
  {
    assert s == s[..pos] + e + s[end..];
    FindsEncoding(s[..pos], e, s[end..]);
  }

  lemma {:induction false} UlebIs(v: u64, e: seq<u8>)
    requires e == EncodeUleb(v)
    ensures IsUleb(e, ToI64(v))
  {
    UlebInverse(v, e);
    forall s: seq<u8>, pos: nat, end: nat | Spans(s, pos, end, e)
      ensures ReadUlebAt(s, pos) == Ok((ToI64(v), end))
    {
      EncodedHere(s, pos, end, e);
    }
  }

  lemma {:induction false} SlebIs(v: i64, e: seq<u8>)
    requires e == EncodeSleb(v)
    ensures IsSleb(e, v)
  {
    SlebInverse(v, e);
    forall s: seq<u8>, pos: nat, end: nat | Spans(s, pos, end, e)
      ensures ReadSlebAt(s, pos) == Ok((v, end))
    {
      EncodedHere(s, pos, end, e);
    }
  }

  lemma {:induction false} FixedHere(v: nat, n: Width, s: seq<u8>, pos: nat, end: nat, enc: u8, pc: i64)
    requires v < Span(n) && Spans(s, pos, end, Low(v, n))
    ensures ReadOperandsAt(Fixed(n), enc, pc, s, pos) == Ok((v, 0, end))
  {
    LowDigits(v, n);
    assert LittleEndian(Low(v, n)) == v;
  }

  lemma {:induction false} AddressHere(enc: u8, address: i64, leb: Leb, s: seq<u8>, pos: nat, end: nat, pc: i64)
    requires Absolute(enc) && FitsFormat(enc, address) && Correct(leb)
    requires Spans(s, pos, end, EncodePointer(enc, address, leb))
    ensures ReadOperandsAt(Address, enc, pc, s, pos) == Ok((address, 0, end))
  {
    PointerHere(enc, pc, address, leb, s, pos, end);
    SmallPattern(address);
  }

  lemma {:induction false} SmallPattern(n: i64)
    ensures ToI64(n) == n
  {
  }

  /** Factoring after narrowing is narrowing after factoring. */
  lemma {:induction false} FactorNarrows(n: int, align: i16)
    requires -TWO_63 <= n < TWO_64
    ensures Factor(ToI64(n), align) == ToI64(n * align as int)
  {
    if n < TWO_63 {
      SmallPattern(n);
    } else {
      var f: int := align;
      assert ToI64(n) == n - TWO_64;
      assert (n - TWO_64) * f == n * f + (-f) * TWO_64;
      ModTwo64(n * f, -f);
    }
  }

  /** The layout of the operands in the decoder's terms, and what it reads. */
  function LayoutOf(args: Args): Operands {
    match args
    case NoArgs => NoOperand
    case FixedArg(_, n) => Fixed(n)
    case AddressArg(_, _) => Address
    case UlebArg(_) => OneUleb
    case SlebArg(_) => OneSleb
    case UlebUleb(_, _) => RegUleb
    case UlebSleb(_, _) => RegSleb
    case UlebBlock(_, _, _) => RegBlock
  }

  predicate Sized(args: Args) {
    && (args.FixedArg? ==> args.v < Span(args.width)) && (args.UlebBlock? ==> args.size == |args.block| < TWO_63)
    && (args.AddressArg? ==> Absolute(args.enc) && FitsFormat(args.enc, args.address))
  }

  function First(args: Args): i64 {
    match args
    case NoArgs => 0
    case FixedArg(v, _) => v
    case AddressArg(_, address) => address
    case UlebArg(a) => ToI64(a)
    case SlebArg(sf) => sf
    case UlebUleb(a, _) => ToI64(a)
    case UlebSleb(a, _) => ToI64(a)
    case UlebBlock(a, _, _) => ToI64(a)
  }

  function Second(args: Args): i64
    requires Sized(args)
  {
    match args
    case UlebUleb(_, b) => ToI64(b)
    case UlebSleb(_, sf) => sf
    case UlebBlock(_, size, _) => size
    case _ => 0
  }

  // --- round trips --------------------------------------------------------------------------

  lemma {:induction false} OneRead(k: Operands, s: seq<u8>, pos: nat, x: i64, end: nat, enc: u8, pc: i64)
    requires (k == OneUleb && ReadUlebAt(s, pos) == Ok((x, end)))
          || (k == OneSleb && ReadSlebAt(s, pos) == Ok((x, end)))
    ensures ReadOperandsAt(k, enc, pc, s, pos) == Ok((x, 0, end))
  {
  }

  lemma {:induction false} TwoRead(k: Operands, s: seq<u8>, pos: nat, x: i64, mid: nat, y: i64, end: nat, enc: u8,
                                   pc: i64)
    requires ReadUlebAt(s, pos) == Ok((x, mid))
    requires (k == RegUleb && ReadUlebAt(s, mid) == Ok((y, end)))
          || (k == RegSleb && ReadSlebAt(s, mid) == Ok((y, end)))
    ensures ReadOperandsAt(k, enc, pc, s, pos) == Ok((x, y, end))
  {
  }

  lemma {:induction false} BlockRead(k: Operands, s: seq<u8>, pos: nat, x: i64, mid: nat, y: i64, start: nat, end: nat,
                                     enc: u8, pc: i64)
    requires k == RegBlock && ReadUlebAt(s, pos) == Ok((x, mid)) && ReadUlebAt(s, mid) == Ok((y, start))
    requires end == start + y && y >= 0
    ensures ReadOperandsAt(k, enc, pc, s, pos) == Ok((x, y, end))
  {
  }

  lemma {:induction false} ReadsOne(args: Args, leb: Leb, s: seq<u8>, pos: nat, end: nat, pc: i64, enc: u8)
    requires args.NoArgs? || args.FixedArg? || args.AddressArg? || args.UlebArg? || args.SlebArg?
    requires Correct(leb) && Sized(args) && (args.AddressArg? ==> args.enc == enc)
    requires Spans(s, pos, end, EncodeArgs(args, leb))
    ensures ReadOperandsAt(LayoutOf(args), enc, pc, s, pos) == Ok((First(args), Second(args), end))
  {
    match args
    case NoArgs =>
    case FixedArg(v, n) => FixedHere(v, n, s, pos, end, enc, pc);
    case AddressArg(_, address) => AddressHere(enc, address, leb, s, pos, end, pc);
    case UlebArg(a) =>
      UlebHere(leb, a, leb.uleb(a), ToI64(a), s, pos, end);
      OneRead(OneUleb, s, pos, ToI64(a), end, enc, pc);
    case SlebArg(sf) =>
      SlebHere(leb, sf, leb.sleb(sf), s, pos, end);
      OneRead(OneSleb, s, pos, sf, end, enc, pc);
  }

  lemma {:induction false} ReadsPair(args: Args, leb: Leb, x: i64, y: i64, s: seq<u8>, pos: nat, mid: nat, end: nat,
                                     pc: i64, enc: u8)
    requires (args.UlebUleb? || args.UlebSleb?) && Correct(leb)
    requires Spans(s, pos, end, EncodeArgs(args, leb)) && mid == pos + |leb.uleb(args.a)|
    requires x == First(args) && y == Second(args)
    ensures ReadOperandsAt(LayoutOf(args), enc, pc, s, pos) == Ok((x, y, end))
  {
    var first := leb.uleb(args.a);
    var second := if args.UlebUleb? then leb.uleb(args.b) else leb.sleb(args.sf);
    Both(s, pos, end, first, second, mid);
    UlebHere(leb, args.a, first, x, s, pos, mid);
    if args.UlebUleb? {
      UlebHere(leb, args.b, second, y, s, mid, end);
    } else {
      SlebHere(leb, args.sf, second, s, mid, end);
    }
    TwoRead(LayoutOf(args), s, pos, x, mid, y, end, enc, pc);
  }

  lemma {:induction false} ReadsBlock(args: Args, leb: Leb, x: i64, s: seq<u8>, pos: nat, mid: nat, start: nat,
                                      end: nat, pc: i64, enc: u8)
    requires args.UlebBlock? && Sized(args) && Correct(leb) && Spans(s, pos, end, EncodeArgs(args, leb))
    requires mid == pos + |leb.uleb(args.a)| && start == mid + |leb.uleb(args.size)| && x == ToI64(args.a)
    ensures ReadOperandsAt(RegBlock, enc, pc, s, pos) == Ok((x, args.size, end))
  {
    var (first, size) := (leb.uleb(args.a), leb.uleb(args.size));
    Both(s, pos, end, first, size + args.block, mid);
    Both(s, mid, end, size, args.block, start);
    UlebHere(leb, args.a, first, x, s, pos, mid);
    SmallPattern(args.size);
    UlebHere(leb, args.size, size, args.size, s, mid, start);
    BlockRead(RegBlock, s, pos, x, mid, args.size, start, end, enc, pc);
  }

  lemma {:induction false} ReadsArgs(args: Args, leb: Leb, s: seq<u8>, pos: nat, end: nat, pc: i64, enc: u8)
    requires Correct(leb) && Sized(args) && (args.AddressArg? ==> args.enc == enc)
    requires Spans(s, pos, end, EncodeArgs(args, leb))
    ensures ReadOperandsAt(LayoutOf(args), enc, pc, s, pos) == Ok((First(args), Second(args), end))
  {
    if args.UlebUleb? || args.UlebSleb? {
      ReadsPair(args, leb, First(args), Second(args), s, pos, pos + |leb.uleb(args.a)|, end, pc, enc);
    } else if args.UlebBlock? {
      var mid := pos + |leb.uleb(args.a)|;
      ReadsBlock(args, leb, First(args), s, pos, mid, mid + |leb.uleb(args.size)|, end, pc, enc);
    } else {
      ReadsOne(args, leb, s, pos, end, pc, enc);
    }
  }

  predicate IsPrimary(op: Op) { op.OpAdvanceLoc? || op.OpOffset? || op.OpRestore? }

  lemma {:induction false} DecodesPrimary(op: Op, leb: Leb, s: seq<u8>, pos: nat, start: nat, end: nat, pc: i64,
                                          o: Options)
    requires Correct(leb) && IsPrimary(op) && Spans(s, start, end, EncodeArgs(ArgsOf(op, o.enc), leb))
    requires start == pos + 1 && pos < |s| && s[pos] == Opcode(op)
    ensures Decode(s, pos, pc, o) == Ok((Narrowed(Meaning(op, o)), end))
  {
    PrimaryOpcode(op);
    match op
    case OpOffset(low, n) =>
      UlebHere(leb, n, leb.uleb(n), ToI64(n), s, start, end);
      FactorNarrows(n, o.dataAlign);
      SmallPattern(low);
    case OpRestore(low) => SmallPattern(low);
    case OpAdvanceLoc(_) =>
  }

  lemma {:induction false} PrimaryOpcode(op: Op)
    requires IsPrimary(op)
    ensures Opcode(op) / 64 == (if op.OpAdvanceLoc? then 1 else if op.OpOffset? then 2 else 3)
    ensures Opcode(op) % 64 == if op.OpAdvanceLoc? then op.step else op.low
  {
  }

  lemma {:induction false} ArgsAreSized(op: Op, o: Options)
    requires Writable(op, o.enc)
    ensures Sized(ArgsOf(op, o.enc)) && (ArgsOf(op, o.enc).AddressArg? ==> ArgsOf(op, o.enc).enc == o.enc)
  {
    assert Span(1) == 256 && Span(2) == TWO_16 && Span(4) == TWO_32;
  }

  lemma {:induction false} FactoredIsMeaning(op: Op, o: Options)
    requires op.OpOffsetExtended? || op.OpValOffset? || op.OpOffsetExtendedSf? || op.OpDefCfaSf? || op.OpValOffsetSf?
          || op.OpDefCfaOffsetSf?
    ensures Extended(Opcode(op), First(ArgsOf(op, o.enc)), Second(ArgsOf(op, o.enc)), o) == Ok(Narrowed(Meaning(op, o)))
  {
    var n: int := if op.OpOffsetExtended? || op.OpValOffset? then op.n else op.sf;
    FactorNarrows(n, o.dataAlign);
    if n < TWO_63 {
      SmallPattern(n);
    }
  }

  lemma {:induction false} ExtendedIsMeaning(op: Op, o: Options)
    requires !IsPrimary(op) && Writable(op, o.enc) && Sized(ArgsOf(op, o.enc))
    ensures Opcode(op) < 64 && OperandsOf(Opcode(op)) == LayoutOf(ArgsOf(op, o.enc))
    ensures Extended(Opcode(op), First(ArgsOf(op, o.enc)), Second(ArgsOf(op, o.enc)), o) == Ok(Narrowed(Meaning(op, o)))
  {
    if op.OpOffsetExtended? || op.OpValOffset? || op.OpOffsetExtendedSf? || op.OpDefCfaSf? || op.OpValOffsetSf?
      || op.OpDefCfaOffsetSf? {
      FactoredIsMeaning(op, o);
    }
  }

  lemma {:induction false} DecodesExtended(s: seq<u8>, pos: nat, start: nat, pc: i64, o: Options, args: Args, i: Instr,
                                           end: nat)
    requires pos < |s| && start == pos + 1 && s[pos] < 64 && Sized(args) && OperandsOf(s[pos]) == LayoutOf(args)
    requires ReadOperandsAt(LayoutOf(args), o.enc, pc, s, start) == Ok((First(args), Second(args), end))
    requires Extended(s[pos], First(args), Second(args), o) == Ok(i)
    ensures Decode(s, pos, pc, o) == Ok((i, end))
  {
  }

  /** Whatever the operands, a written instruction is read as the one meant, with its operands narrowed. */
  lemma {:induction false} DecodeUndoesEncode(op: Op, leb: Leb, s: seq<u8>, pos: nat, start: nat, end: nat, pc: i64,
                                              o: Options)
    requires Correct(leb) && Writable(op, o.enc) && Spans(s, start, end, EncodeArgs(ArgsOf(op, o.enc), leb))
    requires start == pos + 1 && pos < |s| && s[pos] == Opcode(op)
    ensures Decode(s, pos, pc, o) == Ok((Narrowed(Meaning(op, o)), end))
  {
    if IsPrimary(op) {
      DecodesPrimary(op, leb, s, pos, start, end, pc, o);
    } else {
      ArgsAreSized(op, o);
      ReadsArgs(ArgsOf(op, o.enc), leb, s, start, end, pc, o.enc);
      ExtendedIsMeaning(op, o);
      DecodesExtended(s, pos, start, pc, o, ArgsOf(op, o.enc), Narrowed(Meaning(op, o)), end);
    }
  }

  /**
   An address that is written relative to its own position in an entry at `base`, or to data at `base`, is read
   relative to the current location instead: it is read right exactly when that location is `base`.
   */
  lemma {:induction false} RelativeSetLocIff(address: u64, raw: i64, leb: Leb, s: seq<u8>, pos: nat, start: nat,
                                             end: nat, base: nat, pc: i64, o: Options)
    requires KnownFormat(o.enc) && Relative(o.enc) && FitsFormat(o.enc, raw) && Correct(leb)
    requires raw == ToI64(address - (if SelfRelative(o.enc) then base + start else base))
    requires start == pos + 1 && pos < |s| && s[pos] == 0x01 && Spans(s, start, end, EncodePointer(o.enc, raw, leb))
    ensures Decode(s, pos, pc, o) == Ok((SetLoc(ToI64(address + pc - base)), end))
    ensures Decode(s, pos, pc, o) == Ok((SetLoc(ToI64(address)), end)) <==> (pc - base) % TWO_64 == 0
  {
    PointerHere(o.enc, pc, raw, leb, s, start, end);
    RelativeRead(o.enc, address, raw, base, start, pc);
    SetLocFrom(s, pos, pc, o, ToI64(address + pc - base), end);
    assert address + (pc - base) == address + pc - base;
    ShiftIsSeen(address, pc - base);
  }

  lemma {:induction false} RelativeRead(enc: u8, address: int, raw: i64, base: int, start: nat, pc: int)
    requires Relative(enc) && raw == ToI64(address - (if SelfRelative(enc) then base + start else base))
    ensures Referent(enc, raw, pc, start) == ToI64(address + pc - base)
  {
    if SelfRelative(enc) {
      Absorbs(address - (base + start), pc + start);
      assert address - (base + start) + (pc + start) == address + pc - base;
    } else {
      Absorbs(address - base, pc);
      assert address - base + pc == address + pc - base;
    }
  }

  lemma {:induction false} SetLocFrom(s: seq<u8>, pos: nat, pc: i64, o: Options, address: i64, end: nat)
    requires pos < |s| && s[pos] == 0x01 && ReadValueAt(o.enc, pc, s, pos + 1) == Ok((address, end))
    ensures Decode(s, pos, pc, o) == Ok((SetLoc(address), end))
  {
  }

  lemma {:induction false} Absorbs(v: int, w: int)
    ensures ToI64(ToI64(v) + w) == ToI64(v + w)
  {
    PatternKept(v);
    var q := (v - ToI64(v)) / TWO_64;
    ModTwo64(ToI64(v) + w, q);
    assert ToI64(v) + w + q * TWO_64 == v + w;
  }

  lemma {:induction false} PatternKept(v: int)
    ensures (v - ToI64(v)) % TWO_64 == 0
  {
  }

  /** A shift of an address changes its 64 bits unless it is a multiple of 2^64. */
  lemma {:induction false} ShiftIsSeen(address: u64, shift: int)
    ensures ToI64(address + shift) == ToI64(address) <==> shift % TWO_64 == 0
  {
    var q, r := shift / TWO_64, shift % TWO_64;
    assert shift == q * TWO_64 + r;
    ModTwo64(address + r, q);
    assert address + shift == address + r + q * TWO_64;
  }

  /** A program that is written as a producer would records the rows of what it means. */
  lemma {:induction false} CodeIsRecorded(ops: seq<Op>, leb: Leb, s: seq<u8>, pos: nat, st: State, o: Options)
    requires Correct(leb) && forall op :: op in ops ==> Writable(op, o.enc)
    requires pos <= |s| && s[pos..] == EncodeOps(ops, leb, o.enc)
    ensures RowsAt(s, pos, st, o) == Rows(st, Meanings(ops, o))
    decreases ops
  {
    if ops != [] {
      var args := EncodeArgs(ArgsOf(ops[0], o.enc), leb);
      var (start, end) := (pos + 1, pos + 1 + |args|);
      FirstOfCode(s, pos, start, end, Opcode(ops[0]), args, EncodeOps(ops[1..], leb, o.enc));
      DecodeUndoesEncode(ops[0], leb, s, pos, start, end, st.pc, o);
      var i := Narrowed(Meaning(ops[0], o));
      if Step(st, i).Ok? {
        CodeIsRecorded(ops[1..], leb, s, end, After(st, i), o);
      }
      FirstRecorded(s, pos, st, o, i, end, Meanings(ops[1..], o));
    }
  }

  /** Where the recorder goes on after an instruction. */
  function After(st: State, i: Instr): State
    requires Step(st, i).Ok?
  {
    var (st', reached) := Step(st, i).value;
    if reached then Reopen(st') else st'
  }

  lemma {:induction false} FirstRecorded(s: seq<u8>, pos: nat, st: State, o: Options, i: Instr, next: nat,
                                         rest: seq<Instr>)
    ensures (&& pos < |s| && Decode(s, pos, st.pc, o) == Ok((i, next))
             && (Step(st, i).Ok? ==> RowsAt(s, next, After(st, i), o) == Rows(After(st, i), rest)))
            ==> RowsAt(s, pos, st, o) == Rows(st, [i] + rest)
  {
    assert ([i] + rest)[1..] == rest;
    if pos < |s| && Decode(s, pos, st.pc, o) == Ok((i, next)) {
      if Step(st, i).Ok? {
        var (st', reached) := Step(st, i).value;
        assert StepAt(s, pos, st, o) == Ok((st', reached, next));
      } else {
        assert StepAt(s, pos, st, o) == Err(Step(st, i).fault);
      }
    }
  }

  lemma {:induction false} FirstOfCode(s: seq<u8>, pos: nat, start: nat, end: nat, opcode: u8, args: seq<u8>,
                                       rest: seq<u8>)
    requires pos <= |s| && s[pos..] == [opcode] + args + rest && start == pos + 1 && end == start + |args|
    ensures pos < |s| && s[pos] == opcode && Spans(s, start, end, args) && s[end..] == rest
  {
    var tail := s[pos..];
    assert s[pos] == tail[0];
    assert s[start..end] == tail[1..1 + |args|] == args;
    assert s[end..] == tail[1 + |args|..] == rest;
  }
}
