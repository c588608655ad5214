/** The delta list the source builds from a frame description entry, and its replay. */
module FrameRules {
  import opened MachineInt
  import opened Bytes
  import opened Outcome
  import opened Leb128
  import opened CallFrame

  datatype ValueType = AtOffset | InRegister | IsUndefined | ByExpression | ToInitial

  datatype RegState = RegState(reg: u8, valType: ValueType, val: i16)

  datatype CfaState = CfaState(reg: u8, off: i16)

  /** Rules that start at `rva`: the whole CFA rule, but only the register rules added since the row before. */
  datatype FrameState = FrameState(rva: u64, cfa: CfaState, regs: seq<RegState>) {

    function SetCfaReg(reg: int): Result<FrameState> {
      if reg > 255 then Err(Rejected) else Ok(this.(cfa := cfa.(reg := reg % 256)))
    }

    function SetCfaOffset(off: int): Result<FrameState> {
      if off > 0x7FFF || off < -0x8000 then Err(Rejected) else Ok(this.(cfa := cfa.(off := off)))
    }

    function AddRegValue(reg: int, val: int, valType: ValueType): Result<FrameState> {
      if reg > 255 || val > 0x7FFF || val < -0x8000 then Err(Rejected)
      else Ok(this.(regs := regs + [RegState(reg % 256, valType, val)]))
    }
  }

  /** What read_rule moves besides its cursor. */
  datatype State = State(pc: i64, frame: FrameState, cfaStack: seq<CfaState>)

  predicate IsAdvance(i: Instr) { i.SetLoc? || i.Advance? }

  /** The location an advance asks for; one that does not move forwards is ignored. */
  function NextPc(pc: i64, i: Instr): i64
    requires IsAdvance(i)
  {
    var target := if i.SetLoc? then i.address else ToI64(pc + i.delta);
    if target > pc then target else pc
  }

  /** The effect read_rule gives an instruction on the open frame and the CFA stack. */
  function Record(f: FrameState, stack: seq<CfaState>, i: Instr): Result<(FrameState, seq<CfaState>)>
    requires !IsAdvance(i)
  {
    match i
    case Nop => Ok((f, stack))
    case ArgsSize => Ok((f, stack))
    case SameValue(_) => Ok((f, stack))
    case DefCfa(reg, off) => var g :- f.SetCfaReg(reg); var h :- g.SetCfaOffset(off); Ok((h, stack))
    case DefCfaRegister(reg) => var g :- f.SetCfaReg(reg); Ok((g, stack))
    case DefCfaOffset(off) => var g :- f.SetCfaOffset(off); Ok((g, stack))
    case Offset(reg, off) => var g :- f.AddRegValue(reg, off, AtOffset); Ok((g, stack))
    case ValOffset(reg, off) => var g :- f.AddRegValue(reg, off, AtOffset); Ok((g, stack))
    case Undefined(reg) => var g :- f.AddRegValue(reg, 0, IsUndefined); Ok((g, stack))
    case Restore(reg) => var g :- f.AddRegValue(reg, 0, ToInitial); Ok((g, stack))
    case Register(reg, from) => var g :- f.AddRegValue(reg, from, InRegister); Ok((g, stack))
    case Expression(reg) => var g :- f.AddRegValue(reg, 0, ByExpression); Ok((g, stack))
    case ValExpression(reg) => var g :- f.AddRegValue(reg, 0, ByExpression); Ok((g, stack))
    case RememberState => Ok((f, stack + [f.cfa]))
    case RestoreState =>
      if stack == [] then Err(Rejected) else Ok((f.(cfa := stack[|stack| - 1]), stack[..|stack| - 1]))
  }

  /** One instruction; the flag says that a location was reached, which closes the open frame. */
  function Step(st: State, i: Instr): Result<(State, bool)> {
    if IsAdvance(i) then Ok((st.(pc := NextPc(st.pc, i)), true))
    else
      var (f, stack) :- Record(st.frame, st.cfaStack, i);
      Ok((State(st.pc, f, stack), false))
  }

  function StepAt(s: seq<u8>, pos: nat, st: State, o: Options): Result<(State, bool, nat)> {
    var (i, next) :- Decode(s, pos, st.pc, o);
    var (st', reached) :- Step(st, i);
    Ok((st', reached, next))
  }

  method ReadFixed(slice: seq<u8>, cursor: nat, n: nat) returns (r: Result<seq<u8>>, next: nat)
    ensures match ReadFixedAt(slice, cursor, n)
      case Err(e) => r == Err(e)
      case Ok((b, end)) => r == Ok(b) && next == end
  {
    next := cursor + n;
    if next > |slice| {
      return Err(OutOfBounds), cursor;
    }
    return Ok(slice[cursor..next]), next;
  }

  method ReadByte(slice: seq<u8>, cursor: nat) returns (r: Result<u8>, next: nat)
    ensures match ReadByteAt(slice, cursor)
      case Err(e) => r == Err(e)
      case Ok((b, end)) => r == Ok(b) && next == end
  {
    if cursor >= |slice| {
      return Err(OutOfBounds), cursor;
    }
    return Ok(slice[cursor]), cursor + 1;
  }

  method ReadRaw(format: nat, slice: seq<u8>, cursor: nat) returns (r: Result<i64>, next: nat)
    ensures match ReadRawAt(format, slice, cursor)
      case Err(e) => r == Err(e)
      case Ok((v, end)) => r == Ok(v) && next == end
  {
    var value: i64 := 0;
    var b: seq<u8>;
    next := cursor;
    match format {
      case 0x1 => value, next :- ReadUleb(slice, cursor);
      case 0x9 => value, next :- ReadSleb(slice, cursor);
      case 0x2 =>
        b, next :- ReadFixed(slice, cursor, 2);
        value := Le16(b);
      case 0xA =>
        b, next :- ReadFixed(slice, cursor, 2);
        value := SignExtend(Le16(b), 0x8000);
      case 0x3 =>
        b, next :- ReadFixed(slice, cursor, 4);
        value := Le32(b);
      case 0xB =>
        b, next :- ReadFixed(slice, cursor, 4);
        value := SignExtend(Le32(b), 0x8000_0000);
      case 0x4 | 0xC =>
        b, next :- ReadFixed(slice, cursor, 8);
        value := ToI64(Le64(b));
      case _ =>
    }
    return Ok(value), next;
  }

  method ReadValue(enc: u8, data: int, slice: seq<u8>, cursor: nat) returns (r: Result<i64>, next: nat)
    ensures match ReadValueAt(enc, data, slice, cursor)
      case Err(e) => r == Err(e)
      case Ok((v, end)) => r == Ok(v) && next == end
  {
    var value: i64;
    value, next :- ReadRaw(enc % 16, slice, cursor);
    if enc / 16 == 0x1 {
      value := ToI64(value + data + cursor);
    } else if enc / 16 == 0x3 {
      value := ToI64(value + data);
    }
    return Ok(value), next;
  }

  /** The mutable state read_rule threads through a byte slice. */
  class RuleReader {
    var pc: i64
    var cursor: nat
    var frame: FrameState
    var cfaStack: seq<CfaState>

    constructor (pc: i64, frame: FrameState)
      ensures Current() == State(pc, frame, []) && cursor == 0
    {
      this.pc, this.cursor, this.frame, this.cfaStack := pc, 0, frame, [];
    }

    function Current(): State
      reads this
    {
      State(pc, frame, cfaStack)
    }

    method AddRule(reg: int, val: int, valType: ValueType) returns (r: Result<bool>)
      modifies this`frame
      ensures match old(frame).AddRegValue(reg, val, valType)
        case Err(e) => r == Err(e) && frame == old(frame)
        case Ok(f) => r == Ok(false) && frame == f
    {
      var f :- frame.AddRegValue(reg, val, valType);
      frame := f;
      return Ok(false);
    }

    method MoveTo(target: i64) returns (r: Result<bool>)
      modifies this`pc
      ensures pc == (if target > old(pc) then target else old(pc)) && r == Ok(true)
    {
      if target > pc {
        pc := target;
      }
      return Ok(true);
    }

    /** The effect of one decoded instruction. */
    method Apply(i: Instr) returns (r: Result<bool>)
      modifies this`pc, this`frame, this`cfaStack
      ensures match Step(old(Current()), i)
        case Err(e) => r == Err(e)
        case Ok((st, reached)) => r == Ok(reached) && Current() == st
    {
      r := Ok(false);
      match i {
        case Nop | ArgsSize | SameValue(_) =>
        case SetLoc(address) => r := MoveTo(address);
        case Advance(delta) => r := MoveTo(ToI64(pc + delta));
        case Offset(reg, off) => r := AddRule(reg, off, AtOffset);
        case ValOffset(reg, off) => r := AddRule(reg, off, AtOffset);
        case Undefined(reg) => r := AddRule(reg, 0, IsUndefined);
        case Restore(reg) => r := AddRule(reg, 0, ToInitial);
        case Register(reg, from) => r := AddRule(reg, from, InRegister);
        case Expression(reg) => r := AddRule(reg, 0, ByExpression);
        case ValExpression(reg) => r := AddRule(reg, 0, ByExpression);
        case RememberState =>
          cfaStack := cfaStack + [frame.cfa];
        case RestoreState =>
          if cfaStack == [] {
            return Err(Rejected);
          }
          frame := frame.(cfa := cfaStack[|cfaStack| - 1]);
          cfaStack := cfaStack[..|cfaStack| - 1];
        case DefCfa(reg, off) =>
          frame :- frame.SetCfaReg(reg);
          frame :- frame.SetCfaOffset(off);
        case DefCfaRegister(reg) =>
          frame :- frame.SetCfaReg(reg);
        case DefCfaOffset(off) =>
          frame :- frame.SetCfaOffset(off);
      }
    }

    /** read_rule: one instruction, and whether it reached a new location. */
    method ReadRule(slice: seq<u8>, o: Options) returns (r: Result<bool>)
      modifies this
      ensures match StepAt(slice, old(cursor), old(Current()), o)
        case Err(e) => r == Err(e)
        case Ok((st, reached, next)) => r == Ok(reached) && Current() == st && cursor == next
    {
      var ins, p :- ReadByte(slice, cursor);
      cursor := p;
      var e := ins % 64;
      var i;
      match ins / 64 {
        case 0 =>
          var a, b :- ReadOperands(OperandsOf(e), slice, o.enc);
          i :- Extended(e, a, b, o);
        case 1 =>
          i := Advance(Delta(e, o.codeAlign));
        case 2 =>
          var v, next :- ReadUleb(slice, p);
          cursor := next;
          i := Offset(e, Factor(v, o.dataAlign));
        case _ =>
          i := Restore(e);
      }
      r := Apply(i);
    }

    method ReadOperands(k: Operands, slice: seq<u8>, enc: u8) returns (r: Result<i64>, second: i64)
      modifies this`cursor
      ensures match ReadOperandsAt(k, enc, pc, slice, old(cursor))
        case Err(e) => r == Err(e)
        case Ok((a, b, next)) => r == Ok(a) && second == b && cursor == next
    {
      var first: i64, next := 0, cursor;
      var bytes: seq<u8>;
      second := 0;
      match k {
        case NoOperand =>
        case Fixed(n) =>
          bytes, next :- ReadFixed(slice, cursor, n);
          first := LittleEndian(bytes);
        case Address => first, next :- ReadValue(enc, pc, slice, cursor);
        case OneUleb => first, next :- ReadUleb(slice, cursor);
        case OneSleb => first, next :- ReadSleb(slice, cursor);
        case RegUleb =>
          first, next :- ReadUleb(slice, cursor);
          second, next :- ReadUleb(slice, next);
        case RegSleb =>
          first, next :- ReadUleb(slice, cursor);
          second, next :- ReadSleb(slice, next);
        case RegBlock =>
          first, next :- ReadUleb(slice, cursor);
          second, next :- ReadUleb(slice, next);
          if second < 0 {
            return Err(OutOfBounds), second;
          }
          next := next + second;
      }
      cursor := next;
      return Ok(first), second;
    }
  }
}
