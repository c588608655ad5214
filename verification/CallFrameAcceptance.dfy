/** Which programs are accepted: conditions on their operands and on how states are bracketed. */
module CallFrameAcceptance {
  import opened MachineInt
  import opened Bytes
  import opened Outcome
  import opened CallFrame
  import opened FrameRules
  import opened FrameOffsets
  import opened CallFrameTable
  import opened CallFrameCode

  /** The operands fit a register number of eight bits and an offset of sixteen, as signed numbers. */
  predicate Fits(i: Instr) {
    match i
    case DefCfa(reg, off) => reg <= 255 && -32768 <= off <= 32767
    case DefCfaRegister(reg) => reg <= 255
    case DefCfaOffset(off) => -32768 <= off <= 32767
    case Offset(reg, off) => reg <= 255 && -32768 <= off <= 32767
    case ValOffset(reg, off) => reg <= 255 && -32768 <= off <= 32767
    case Register(reg, from) => reg <= 255 && -32768 <= from <= 32767
    case Undefined(reg) => reg <= 255
    case Restore(reg) => reg <= 255
    case Expression(reg) => reg <= 255
    case ValExpression(reg) => reg <= 255
    case Nop | SetLoc(_) | Advance(_) | SameValue(_) | RememberState | RestoreState | ArgsSize => true
  }

  /** States remembered, less states restored. */
  function Depth(instrs: seq<Instr>): int {
    if instrs == [] then 0
    else (if instrs[0].RememberState? then 1 else if instrs[0].RestoreState? then -1 else 0) + Depth(instrs[1..])
  }

  /** All operands fit, and no beginning restores more states than it remembered. */
  predicate Acceptable(instrs: seq<Instr>) {
    (forall i :: i in instrs ==> Fits(i)) && forall n :: 0 <= n <= |instrs| ==> Depth(instrs[..n]) >= 0
  }

  lemma {:induction false} DepthOf(a: seq<Instr>, b: seq<Instr>)
    ensures Depth(a + b) == Depth(a) + Depth(b)
  {
    if a == [] {
      assert a + b == b;
    } else {
      DepthOf(a[1..], b);
      assert (a + b)[1..] == a[1..] + b;
    }
  }

  /** One instruction is accepted by its operands, and a restore by a state to restore. */
  lemma {:induction false} StepIffFits(st: State, i: Instr)
    ensures Step(st, i).Ok? <==> Fits(i) && |st.cfaStack| + Depth([i]) >= 0
    ensures Step(st, i).Ok? ==> |Step(st, i).value.0.cfaStack| == |st.cfaStack| + Depth([i])
    ensures Step(st, i).Err? ==> Step(st, i) == Err(Rejected)
  {
    assert [i][1..] == [];
  }

  /** The same for a whole list that starts with some states remembered. */
  predicate AcceptableFrom(depth: nat, instrs: seq<Instr>) {
    (forall i :: i in instrs ==> Fits(i)) && forall n :: 0 <= n <= |instrs| ==> depth + Depth(instrs[..n]) >= 0
  }

  lemma {:induction false} AcceptableHead(depth: nat, instrs: seq<Instr>, next: int)
    requires instrs != [] && next == depth + Depth([instrs[0]])
    ensures AcceptableFrom(depth, instrs) <==> Fits(instrs[0]) && next >= 0 && AcceptableFrom(next, instrs[1..])
  {
    var i, rest := instrs[0], instrs[1..];
    assert forall j :: j in instrs <==> j == i || j in rest;
    forall n | 1 <= n <= |instrs|
      ensures depth + Depth(instrs[..n]) == next + Depth(rest[..n - 1])
    {
      assert instrs[..n] == [i] + rest[..n - 1];
      DepthOf([i], rest[..n - 1]);
    }
    assert rest[..1 - 1] == [];
    forall n | 0 <= n <= |rest|
      ensures next + Depth(rest[..n]) == depth + Depth(instrs[..n + 1])
    {
      assert depth + Depth(instrs[..n + 1]) == next + Depth(rest[..n + 1 - 1]);
    }
    assert instrs[..0] == [];
  }

  lemma {:induction false} InitialIffAcceptable(st: State, instrs: seq<Instr>)
    ensures RecordInitial(st, instrs).Ok? <==> AcceptableFrom(|st.cfaStack|, instrs)
    ensures RecordInitial(st, instrs).Ok? ==>
              |RecordInitial(st, instrs).value.cfaStack| == |st.cfaStack| + Depth(instrs)
    ensures RecordInitial(st, instrs).Err? ==> RecordInitial(st, instrs) == Err(Rejected)
    decreases instrs
  {
    if instrs == [] {
      assert instrs[..0] == [];
    } else {
      StepIffFits(st, instrs[0]);
      AcceptableHead(|st.cfaStack|, instrs, |st.cfaStack| + Depth([instrs[0]]));
      DepthOf([instrs[0]], instrs[1..]);
      assert [instrs[0]] + instrs[1..] == instrs;
      if Step(st, instrs[0]).Ok? {
        InitialIffAcceptable(Step(st, instrs[0]).value.0, instrs[1..]);
      }
    }
  }

  lemma {:induction false} RowsIffAcceptable(st: State, instrs: seq<Instr>)
    ensures Rows(st, instrs).Ok? <==> AcceptableFrom(|st.cfaStack|, instrs)
    ensures Rows(st, instrs).Err? ==> Rows(st, instrs) == Err(Rejected)
    decreases instrs
  {
    if instrs == [] {
      assert instrs[..0] == [];
    } else {
      StepIffFits(st, instrs[0]);
      AcceptableHead(|st.cfaStack|, instrs, |st.cfaStack| + Depth([instrs[0]]));
      if Step(st, instrs[0]).Ok? {
        var (st', reached) := Step(st, instrs[0]).value;
        RowsIffAcceptable(if reached then Reopen(st') else st', instrs[1..]);
      }
    }
  }

  lemma {:induction false} AcceptableJoin(a: seq<Instr>, b: seq<Instr>)
    ensures Acceptable(a + b) <==> AcceptableFrom(0, a) && Depth(a) >= 0 && AcceptableFrom(Depth(a), b)
  {
    forall n | 0 <= n <= |a|
      ensures (a + b)[..n] == a[..n]
    {
    }
    forall n | 0 <= n <= |b|
      ensures Depth((a + b)[..|a| + n]) == Depth(a) + Depth(b[..n])
    {
      assert (a + b)[..|a| + n] == a + b[..n];
      DepthOf(a, b[..n]);
    }
    assert a[..|a|] == a;
    if AcceptableFrom(0, a) && Depth(a) >= 0 && AcceptableFrom(Depth(a), b) {
      forall n | 0 <= n <= |a + b|
        ensures Depth((a + b)[..n]) >= 0
      {
        if n > |a| {
          assert Depth((a + b)[..|a| + (n - |a|)]) == Depth(a) + Depth(b[..n - |a|]);
        }
      }
    }
    if Acceptable(a + b) {
      assert Depth((a + b)[..|a|]) >= 0;
    }
  }

  /** A program is accepted exactly when its initial instructions and its body together are acceptable. */
  lemma {:induction false} LoadsIffAcceptable(p: Program)
    ensures Load(p).Ok? <==> Acceptable(p.initial + p.body)
    ensures Load(p).Err? ==> Load(p) == Err(Rejected)
  {
    AcceptableJoin(p.initial, p.body);
    var start := Start(p.pcStart);
    InitialIffAcceptable(start, p.initial);
    if RecordInitial(start, p.initial).Ok? {
      RowsIffAcceptable(RecordInitial(start, p.initial).value.(pc := p.pcStart), p.body);
    }
  }

  /** Opcodes outside the table are rejected, and so is `def_cfa_expression`, once its operand is read. */
  lemma {:induction false} UnknownIsRejected(s: seq<u8>, pos: nat, st: State, o: Options)
    requires pos < |s| && forall op: Op :: Opcode(op) != s[pos]
    ensures Decode(s, pos, st.pc, o).Err? && (s[pos] != 0x0F ==> Decode(s, pos, st.pc, o) == Err(Rejected))
    ensures RowsAt(s, pos, st, o).Err? && RunInitialAt(s, pos, st, o).Err?
  {
    KnownHasExample(s[pos]);
  }

  lemma {:induction false} KnownHasExample(b: u8)
    ensures Known(b) ==> exists op: Op :: Opcode(op) == b
  {
    if Known(b) {
      var op := Example(b);
      assert Opcode(op) == b;
    }
  }

  predicate Known(b: u8) { b < 0x0F || 0x10 <= b < 0x17 || b == 0x2E || 0x40 <= b }

  /** An instruction with a given opcode. */
  function Example(b: u8): (op: Op)
    requires Known(b)
    ensures Opcode(op) == b
  {
    if b >= 0xC0 then OpRestore(b - 0xC0)
    else if b >= 0x80 then OpOffset(b - 0x80, 0)
    else if b >= 0x40 then OpAdvanceLoc(b - 0x40)
    else
      match b
      case 0x00 => OpNop
      case 0x01 => OpSetLoc(0)
      case 0x02 => OpAdvanceLoc1(0)
      case 0x03 => OpAdvanceLoc2(0)
      case 0x04 => OpAdvanceLoc4(0)
      case 0x05 => OpOffsetExtended(0, 0)
      case 0x06 => OpRestoreExtended(0)
      case 0x07 => OpUndefined(0)
      case 0x08 => OpSameValue(0)
      case 0x09 => OpRegister(0, 0)
      case 0x0A => OpRememberState
      case 0x0B => OpRestoreState
      case 0x0C => OpDefCfa(0, 0)
      case 0x0D => OpDefCfaRegister(0)
      case 0x0E => OpDefCfaOffset(0)
      case 0x10 => OpExpression(0, [])
      case 0x11 => OpOffsetExtendedSf(0, 0)
      case 0x12 => OpDefCfaSf(0, 0)
      case 0x13 => OpDefCfaOffsetSf(0)
      case 0x14 => OpValOffset(0, 0)
      case 0x15 => OpValOffsetSf(0, 0)
      case 0x16 => OpValExpression(0, [])
      case _ => OpArgsSize(0)
  }
}
