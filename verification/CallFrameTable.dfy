/**
 The call-frame table of section 6.4 of DWARF 4, computed eagerly, and how far the
 source's delta list agrees with it.
 */
module CallFrameTable {
  import opened MachineInt
  import opened Outcome
  import opened CallFrame
  import opened FrameRules
  import opened FrameOffsets

  /** Register rules of section 6.4.1; a register without an entry has no rule. */
  datatype Rule =
    | IsUndefinedRule
    | SameRule
    | OffsetRule(n: int)
    | ValOffsetRule(n: int)
    | RegisterRule(from: int)
    | ExpressionRule
    | ValExpressionRule

  datatype Row = Row(cfaReg: int, cfaOff: int, rules: map<int, Rule>)

  /** A decoded FDE together with the initial instructions of its CIE. */
  datatype Program = Program(pcStart: i64, initial: seq<Instr>, body: seq<Instr>)

  function WithRule(row: Row, reg: int, rule: Rule): Row {
    row.(rules := row.rules[reg := rule])
  }

  /** Section 6.4.2 for one instruction that does not change the location. */
  function Execute(row: Row, stack: seq<Row>, initial: map<int, Rule>, i: Instr): (Row, seq<Row>)
    requires !IsAdvance(i)
  {
    match i
    case Nop | ArgsSize => (row, stack)
    case DefCfa(reg, off) => (row.(cfaReg := reg, cfaOff := off), stack)
    case DefCfaRegister(reg) => (row.(cfaReg := reg), stack)
    case DefCfaOffset(off) => (row.(cfaOff := off), stack)
    case Offset(reg, off) => (WithRule(row, reg, OffsetRule(off)), stack)
    case ValOffset(reg, off) => (WithRule(row, reg, ValOffsetRule(off)), stack)
    case Undefined(reg) => (WithRule(row, reg, IsUndefinedRule), stack)
    case SameValue(reg) => (WithRule(row, reg, SameRule), stack)
    case Register(reg, from) => (WithRule(row, reg, RegisterRule(from)), stack)
    case Expression(reg) => (WithRule(row, reg, ExpressionRule), stack)
    case ValExpression(reg) => (WithRule(row, reg, ValExpressionRule), stack)
    case Restore(reg) =>
      (if reg in initial then WithRule(row, reg, initial[reg]) else row.(rules := row.rules - {reg}), stack)
    case RememberState => (row, stack + [row])
    case RestoreState =>
      if stack == [] then (row, stack) else (stack[|stack| - 1], stack[..|stack| - 1])
  }

  function ExecuteInitial(row: Row, stack: seq<Row>, instrs: seq<Instr>): (Row, seq<Row>)
    decreases instrs
  {
    if instrs == [] then (row, stack)
    else if IsAdvance(instrs[0]) then ExecuteInitial(row, stack, instrs[1..])
    else
      var (row', stack') := Execute(row, stack, map[], instrs[0]);
      ExecuteInitial(row', stack', instrs[1..])
  }

  /** The location a row starts at, by section 6.4.2: the address given, or the old one and the delta. */
  function NextLoc(loc: int, i: Instr): int
    requires IsAdvance(i)
  {
    if i.SetLoc? then ToU64(i.address) else loc + i.delta
  }

  /** Section 6.4.3: process instructions until one moves the location past the target. */
  function RowFrom(loc: int, row: Row, stack: seq<Row>, initial: map<int, Rule>, instrs: seq<Instr>, target: u64): Row
    decreases instrs
  {
    if instrs == [] then row
    else if IsAdvance(instrs[0]) then
      var loc' := NextLoc(loc, instrs[0]);
      if loc' > target then row else RowFrom(loc', row, stack, initial, instrs[1..], target)
    else
      var (row', stack') := Execute(row, stack, initial, instrs[0]);
      RowFrom(loc, row', stack', initial, instrs[1..], target)
  }

  const EMPTY_ROW := Row(0, 0, map[])

  function Table(p: Program, target: u64): Row {
    var (row, stack) := ExecuteInitial(EMPTY_ROW, [], p.initial);
    RowFrom(ToU64(p.pcStart), row, stack, row.rules, p.body, target)
  }

  // --- the source's delta list, on decoded instructions -------------------------------

  function RecordInitial(st: State, instrs: seq<Instr>): Result<State>
    decreases instrs
  {
    if instrs == [] then Ok(st)
    else
      var (st', _) :- Step(st, instrs[0]);
      RecordInitial(st', instrs[1..])
  }

  function Rows(st: State, instrs: seq<Instr>): (r: Result<seq<FrameState>>)
    decreases instrs
  {
    if instrs == [] then Ok([st.frame])
    else
      var (st', reached) :- Step(st, instrs[0]);
      if reached then
        var rest :- Rows(Reopen(st'), instrs[1..]);
        Ok([st'.frame] + rest)
      else Rows(st', instrs[1..])
  }

  function Load(p: Program): Result<seq<FrameState>> {
    var st :- RecordInitial(Start(p.pcStart), p.initial);
    Rows(st.(pc := p.pcStart), p.body)
  }

  // --- decoding whole instruction streams ----------------------------------------------

  function PcAfter(pc: i64, i: Instr): i64 { if IsAdvance(i) then NextPc(pc, i) else pc }

  function InstrsAt(s: seq<u8>, pos: nat, pc: i64, o: Options): Result<seq<Instr>>
    decreases |s| - pos
  {
    if pos >= |s| then Ok([])
    else
      var (i, next) :- Decode(s, pos, pc, o);
      var rest :- InstrsAt(s, next, PcAfter(pc, i), o);
      Ok([i] + rest)
  }

  function ProgramAt(file: seq<u8>, pos: nat): Result<Program> {
    var (fde, entry) :- EntriesAt(file, pos);
    var c :- CieAt(entry);
    var (pcStart, _, start) :- FdeHeaderAt(fde, pos, c.options);
    var initial :- InstrsAt(entry, c.start, pcStart, c.options);
    var body :- InstrsAt(fde, start, pcStart, c.options);
    Ok(Program(pcStart, initial, body))
  }

  lemma {:induction false} InitialIsDecoded(s: seq<u8>, pos: nat, st: State, o: Options)
    requires RunInitialAt(s, pos, st, o).Ok?
    ensures InstrsAt(s, pos, st.pc, o).Ok?
    ensures RunInitialAt(s, pos, st, o) == RecordInitial(st, InstrsAt(s, pos, st.pc, o).value)
    decreases |s| - pos
  {
    if pos < |s| {
      var (i, next) := Decode(s, pos, st.pc, o).value;
      var (st', _) := Step(st, i).value;
      assert StepAt(s, pos, st, o).value.0 == st';
      InitialIsDecoded(s, next, st', o);
    }
  }

  lemma {:induction false} RowsAreDecoded(s: seq<u8>, pos: nat, st: State, o: Options)
    requires RowsAt(s, pos, st, o).Ok?
    ensures InstrsAt(s, pos, st.pc, o).Ok?
    ensures RowsAt(s, pos, st, o) == Rows(st, InstrsAt(s, pos, st.pc, o).value)
    decreases |s| - pos
  {
    if pos < |s| {
      var (i, next) := Decode(s, pos, st.pc, o).value;
      var (st', reached) := Step(st, i).value;
      assert StepAt(s, pos, st, o).value.0 == st';
      RowsAreDecoded(s, next, if reached then Reopen(st') else st', o);
    }
  }

  /** Whatever load_rules accepts is a decoded program, and its frame states are those of that program. */
  lemma {:induction false} LoadedIsProgram(file: seq<u8>, pos: nat)
    requires LoadAt(file, pos).Ok?
    ensures ProgramAt(file, pos).Ok?
    ensures Load(ProgramAt(file, pos).value) == Ok(LoadAt(file, pos).value.rows)
  {
    var (fde, entry) := EntriesAt(file, pos).value;
    var c := CieAt(entry).value;
    var (pcStart, size, start) := FdeHeaderAt(fde, pos, c.options).value;
    InitialIsDecoded(entry, c.start, Start(pcStart), c.options);
    var st := RunInitialAt(entry, c.start, Start(pcStart), c.options).value;
    RowsAreDecoded(fde, start, st.(pc := pcStart), c.options);
  }
}
