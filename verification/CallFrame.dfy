/** Decoding of call-frame instructions and of the CIE/FDE entries that hold them. */
module CallFrame {
  import opened MachineInt
  import opened Bytes
  import opened Outcome
  import opened Leb128

  type i16 = v: int | -0x8000 <= v < 0x8000

  /** One call-frame instruction with its operands factored, as section 6.4.2 of DWARF 4 names them. */
  datatype Instr =
    | Nop
    | SetLoc(address: i64)
    | Advance(delta: int)
    | DefCfa(reg: int, off: int)
    | DefCfaRegister(reg: int)
    | DefCfaOffset(off: int)
    | Offset(reg: int, off: int)
    | ValOffset(reg: int, off: int)
    | Undefined(reg: int)
    | SameValue(reg: int)
    | Restore(reg: int)
    | Register(reg: int, from: int)
    | Expression(reg: int)
    | ValExpression(reg: int)
    | RememberState
    | RestoreState
    | ArgsSize

  /** Encoding of addresses and the two alignment factors of the CIE. */
  datatype Options = Options(enc: u8, codeAlign: i16, dataAlign: i16, hasAugData: bool)

  function ReadByteAt(s: seq<u8>, pos: nat): Result<(u8, nat)> {
    if pos < |s| then Ok((s[pos], pos + 1)) else Err(OutOfBounds)
  }

  function ReadFixedAt(s: seq<u8>, pos: nat, n: nat): (r: Result<(seq<u8>, nat)>)
    ensures r.Ok? ==> |r.value.0| == n && r.value.1 == pos + n
  {
    if pos + n <= |s| then Ok((s[pos..pos + n], pos + n)) else Err(OutOfBounds)
  }

  /** Sign extension of an n-bit pattern, `half` being 2^(n-1). */
  function SignExtend(v: nat, half: nat): int {
    if v < half then v else v - 2 * half
  }

  function ReadRawAt(format: nat, s: seq<u8>, pos: nat): (r: Result<(i64, nat)>)
    ensures r.Ok? ==> pos <= r.value.1
  {
    match format
    case 0x1 => ReadUlebAt(s, pos)
    case 0x9 => ReadSlebAt(s, pos)
    case 0x2 => var (b, next) :- ReadFixedAt(s, pos, 2); Ok((Le16(b) as int, next))
    case 0x3 => var (b, next) :- ReadFixedAt(s, pos, 4); Ok((Le32(b) as int, next))
    case 0x4 => var (b, next) :- ReadFixedAt(s, pos, 8); Ok((ToI64(Le64(b)), next))
    case 0xA => var (b, next) :- ReadFixedAt(s, pos, 2); Ok((SignExtend(Le16(b), 0x8000), next))
    case 0xB => var (b, next) :- ReadFixedAt(s, pos, 4); Ok((SignExtend(Le32(b), 0x8000_0000), next))
    case 0xC => var (b, next) :- ReadFixedAt(s, pos, 8); Ok((ToI64(Le64(b)), next))
    case _ => Ok((0, pos))
  }

  /** Applies the pointer application bits: relative to the position read, or to `data` alone. */
  function Relocate(enc: u8, value: i64, data: int, start: nat): i64 {
    if enc / 16 == 0x1 then ToI64(value + data + start)
    else if enc / 16 == 0x3 then ToI64(value + data)
    else value
  }

  function ReadValueAt(enc: u8, data: int, s: seq<u8>, pos: nat): (r: Result<(i64, nat)>)
    ensures r.Ok? ==> pos <= r.value.1
  {
    var (value, next) :- ReadRawAt(enc % 16, s, pos);
    Ok((Relocate(enc, value, data, pos), next))
  }

  /** A factored offset: 64-bit multiplication that wraps. */
  function Factor(v: int, align: i16): i64 { ToI64(v * align as int) }

  /** A factored advance; 32 by 16 bits, so it cannot overflow. */
  function Delta(n: int, align: i16): int { n * align as int }

  type Width = n: nat | n == 1 || n == 2 || n == 4 witness 1

  /** The operand layouts of section 7.23. */
  datatype Operands =
    | NoOperand
    | Fixed(width: Width)
    | Address
    | OneUleb
    | OneSleb
    | RegUleb
    | RegSleb
    | RegBlock

  function OperandsOf(op: nat): Operands {
    match op
    case 0x01 => Address
    case 0x02 => Fixed(1)
    case 0x03 => Fixed(2)
    case 0x04 => Fixed(4)
    case 0x06 | 0x07 | 0x08 | 0x0D | 0x0E | 0x0F | 0x2E => OneUleb
    case 0x05 | 0x09 | 0x0C | 0x14 => RegUleb
    case 0x11 | 0x12 | 0x15 => RegSleb
    case 0x13 => OneSleb
    case 0x10 | 0x16 => RegBlock
    case _ => NoOperand
  }

  /** Reads up to two operands.  A block length with its top bit set is reported as a fault. */
  function ReadOperandsAt(k: Operands, enc: u8, pc: i64, s: seq<u8>, pos: nat): (r: Result<(i64, i64, nat)>)
    ensures r.Ok? ==> pos <= r.value.2
  {
    match k
    case NoOperand => Ok((0, 0, pos))
    case Fixed(n) => var (b, next) :- ReadFixedAt(s, pos, n); Ok((LittleEndian(b), 0, next))
    case Address => var (a, next) :- ReadValueAt(enc, pc, s, pos); Ok((a, 0, next))
    case OneUleb => var (v, next) :- ReadUlebAt(s, pos); Ok((v, 0, next))
    case OneSleb => var (v, next) :- ReadSlebAt(s, pos); Ok((v, 0, next))
    case RegUleb =>
      var (r, p) :- ReadUlebAt(s, pos);
      var (v, next) :- ReadUlebAt(s, p);
      Ok((r, v, next))
    case RegSleb =>
      var (r, p) :- ReadUlebAt(s, pos);
      var (v, next) :- ReadSlebAt(s, p);
      Ok((r, v, next))
    case RegBlock =>
      var (r, p) :- ReadUlebAt(s, pos);
      var (v, next) :- ReadUlebAt(s, p);
      if v < 0 then Err(OutOfBounds) else Ok((r, v, next + v))
  }

  /** The extended opcodes of section 7.23, from their operands. */
  function Extended(op: nat, a: i64, b: i64, o: Options): Result<Instr> {
    match op
    case 0x00 => Ok(Nop)
    case 0x01 => Ok(SetLoc(a))
    case 0x02 | 0x03 | 0x04 => Ok(Advance(Delta(a, o.codeAlign)))
    case 0x05 | 0x11 => Ok(Offset(a, Factor(b, o.dataAlign)))
    case 0x06 => Ok(Restore(a))
    case 0x07 => Ok(Undefined(a))
    case 0x08 => Ok(SameValue(a))
    case 0x09 => Ok(Register(a, b))
    case 0x0A => Ok(RememberState)
    case 0x0B => Ok(RestoreState)
    case 0x0C => Ok(DefCfa(a, b))
    case 0x0D => Ok(DefCfaRegister(a))
    case 0x0E => Ok(DefCfaOffset(a))
    case 0x10 => Ok(Expression(a))
    case 0x12 => Ok(DefCfa(a, Factor(b, o.dataAlign)))
    case 0x13 => Ok(DefCfaOffset(Factor(a, o.dataAlign)))
    case 0x14 | 0x15 => Ok(ValOffset(a, Factor(b, o.dataAlign)))
    case 0x16 => Ok(ValExpression(a))
    case 0x2E => Ok(ArgsSize)
    case _ => Err(Rejected)
  }

  /** One instruction: the top two bits of its first byte are the primary opcode. */
  function Decode(s: seq<u8>, pos: nat, pc: i64, o: Options): (r: Result<(Instr, nat)>)
    ensures r.Ok? ==> pos < |s| && pos < r.value.1
  {
    var (ins, p) :- ReadByteAt(s, pos);
    var e := ins % 64;
    match ins / 64
    case 0 =>
      var (a, b, next) :- ReadOperandsAt(OperandsOf(e), o.enc, pc, s, p);
      var i :- Extended(e, a, b, o);
      Ok((i, next))
    case 1 => Ok((Advance(Delta(e, o.codeAlign)), p))
    case 2 => var (v, next) :- ReadUlebAt(s, p); Ok((Offset(e, Factor(v, o.dataAlign)), next))
    case _ => Ok((Restore(e), p))
  }
}
