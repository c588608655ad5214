/** The register rules of the replay: register by register, and for which kinds of instructions all of them. */
module CallFrameRegisters {
  import opened MachineInt
  import opened Outcome
  import opened CallFrame
  import opened FrameRules
  import opened FrameOffsets
  import opened CallFrameTable
  import opened CallFrameReplay

  // --- the rule of one register --------------------------------------------------------------

  function At(m: map<nat, int>, r: nat): Option<int> {
    if r in m then Some(m[r]) else None
  }

  function OffsetOf(rules: map<int, Rule>, r: nat): Option<int> {
    if r in rules && rules[r].OffsetRule? then Some(rules[r].n) else None
  }

  predicate SameOffset(m: map<nat, int>, rules: map<int, Rule>, r: nat) {
    At(m, r) == OffsetOf(rules, r)
  }

  /** A register number of 2^63 or more that is taken for a register by its low byte. */
  predicate Aliases(reg: int, r: nat) { reg < 0 && reg % 256 == r }

  /**
   An instruction that leaves a register with the rule of the table if it had it before.  The source replays
   offsets and `undefined`, takes value offsets for offsets, and knows register numbers by their low byte; what
   else changes a rule is harmless only where it does not change whether there is an offset, and which.
   */
  predicate Faithful(r: nat, row: Row, stack: seq<Row>, initial: map<int, Rule>, i: Instr) {
    var now := OffsetOf(row.rules, r);
    match i
    case Offset(reg, off) => Aliases(reg, r) ==> now == Some(off)
    case ValOffset(reg, off) => reg != r && (Aliases(reg, r) ==> now == Some(off))
    case Undefined(reg) => Aliases(reg, r) ==> now == None
    case SameValue(reg) => reg == r ==> now == None
    case Register(reg, _) => reg == r ==> now == None
    case Expression(reg) => reg == r ==> now == None
    case ValExpression(reg) => reg == r ==> now == None
    case Restore(reg) => reg == r ==> OffsetOf(initial, r) == now
    case RestoreState => stack == [] || OffsetOf(stack[|stack| - 1].rules, r) == now
    case _ => true
  }

  predicate FaithfulAll(r: nat, row: Row, stack: seq<Row>, initial: map<int, Rule>, instrs: seq<Instr>)
    decreases instrs
  {
    if instrs == [] then true
    else if IsAdvance(instrs[0]) then FaithfulAll(r, row, stack, initial, instrs[1..])
    else
      var (row', stack') := Execute(row, stack, initial, instrs[0]);
      Faithful(r, row, stack, initial, instrs[0]) && FaithfulAll(r, row', stack', initial, instrs[1..])
  }

  predicate FaithfulStart(p: Program, r: nat) {
    FaithfulAll(r, EMPTY_ROW, [], map[], p.initial)
  }

  predicate FaithfulBody(p: Program, r: nat) {
    var (row, stack) := ExecuteInitial(EMPTY_ROW, [], p.initial);
    FaithfulAll(r, row, stack, row.rules, p.body)
  }

  lemma {:induction false} StepIsFaithfulIff(r: nat, m: map<nat, int>, st: State, row: Row, stack: seq<Row>,
                                             initial: map<int, Rule>, i: Instr, maxReg: nat)
    requires r < maxReg && !IsAdvance(i) && Step(st, i).Ok? && SameOffset(m, row.rules, r)
    ensures var (st', (row', stack')) := (Step(st, i).value.0, Execute(row, stack, initial, i));
      SameOffset(ReplayRegs(m, st'.frame.regs[|st.frame.regs|..], maxReg), row'.rules, r)
      <==> Faithful(r, row, stack, initial, i)
  {
    AddedByStep(st, i);
    OneReplayed(m, Added(i), maxReg);
  }

  /** The register state an instruction appends, if its operands are accepted. */
  function Added(i: Instr): seq<RegState> {
    match i
    case Offset(reg, off) => RegStateFor(reg, AtOffset, off)
    case ValOffset(reg, off) => RegStateFor(reg, AtOffset, off)
    case Undefined(reg) => RegStateFor(reg, IsUndefined, 0)
    case Restore(reg) => RegStateFor(reg, ToInitial, 0)
    case Register(reg, from) => RegStateFor(reg, InRegister, from)
    case Expression(reg) => RegStateFor(reg, ByExpression, 0)
    case ValExpression(reg) => RegStateFor(reg, ByExpression, 0)
    case _ => []
  }

  function RegStateFor(reg: int, valType: ValueType, val: int): (s: seq<RegState>)
    ensures |s| <= 1
  {
    if -0x8000 <= val <= 0x7FFF then [RegState(reg % 256, valType, val)] else []
  }

  lemma {:induction false} AddedByStep(st: State, i: Instr)
    requires !IsAdvance(i) && Step(st, i).Ok?
    ensures Step(st, i).value.0.frame.regs[|st.frame.regs|..] == Added(i)
  {
  }

  lemma {:induction false} OneReplayed(m: map<nat, int>, added: seq<RegState>, maxReg: nat)
    requires |added| <= 1
    ensures ReplayRegs(m, added, maxReg) == if added == [] then m else ReplayReg(m, added[0], maxReg)
  {
  }

  lemma {:induction false} InitialIsFaithful(r: nat, st: State, row: Row, stack: seq<Row>, instrs: seq<Instr>,
                                             maxReg: nat)
    requires r < maxReg && RecordInitial(st, instrs).Ok? && FaithfulAll(r, row, stack, map[], instrs)
    requires SameOffset(ReplayRegs(map[], st.frame.regs, maxReg), row.rules, r)
    ensures var (st', (row', stack')) := (RecordInitial(st, instrs).value, ExecuteInitial(row, stack, instrs));
      SameOffset(ReplayRegs(map[], st'.frame.regs, maxReg), row'.rules, r)
    decreases instrs
  {
    if instrs != [] {
      var (st', _) := Step(st, instrs[0]).value;
      if IsAdvance(instrs[0]) {
        InitialIsFaithful(r, st', row, stack, instrs[1..], maxReg);
      } else {
        StepIsFaithfulIff(r, ReplayRegs(map[], st.frame.regs, maxReg), st, row, stack, map[], instrs[0], maxReg);
        StepAddsAtMostOne(st, instrs[0]);
        var added := st'.frame.regs[|st.frame.regs|..];
        assert st'.frame.regs == st.frame.regs + added;
        ReplayRegsAppend(map[], st.frame.regs, added, maxReg);
        var (row', stack') := Execute(row, stack, map[], instrs[0]);
        InitialIsFaithful(r, st', row', stack', instrs[1..], maxReg);
      }
    }
  }

  lemma {:induction false} LiveIsFaithful(r: nat, m: map<nat, int>, st: State, row: Row, stack: seq<Row>,
                                          initial: map<int, Rule>, instrs: seq<Instr>, target: u64, maxReg: nat)
    requires r < maxReg && Rows(st, instrs).Ok? && Followed(ToU64(st.pc), instrs)
    requires SameOffset(m, row.rules, r) && FaithfulAll(r, row, stack, initial, instrs)
    ensures SameOffset(RunLive(st, m, instrs, target, maxReg).offsets,
                       RowFrom(ToU64(st.pc), row, stack, initial, instrs, target).rules, r)
    decreases instrs
  {
    if instrs != [] {
      var (st', reached) := Step(st, instrs[0]).value;
      if reached {
        FollowsIff(st.pc, instrs[0]);
        if ToU64(st'.pc) <= target {
          LiveIsFaithful(r, m, Reopen(st'), row, stack, initial, instrs[1..], target, maxReg);
        }
      } else {
        StepIsFaithfulIff(r, m, st, row, stack, initial, instrs[0], maxReg);
        var (row', stack') := Execute(row, stack, initial, instrs[0]);
        var m' := ReplayRegs(m, st'.frame.regs[|st.frame.regs|..], maxReg);
        LiveIsFaithful(r, m', st', row', stack', initial, instrs[1..], target, maxReg);
      }
    }
  }

  /** A register that every instruction of a program treats faithfully is replayed as the table has it. */
  lemma {:induction false} FaithfulIsReplayed(p: Program, r: nat, target: u64, maxReg: nat)
    requires Load(p).Ok? && Progresses(p) && ToU64(p.pcStart) <= target && r < maxReg
    requires FaithfulStart(p, r) && FaithfulBody(p, r)
    ensures SameOffset(Replay(NOTHING, Load(p).value, target, maxReg).offsets, Table(p, target).rules, r)
  {
    var st := RecordInitial(Start(p.pcStart), p.initial).value.(pc := p.pcStart);
    var (row, stack) := ExecuteInitial(EMPTY_ROW, [], p.initial);
    InitialIsFaithful(r, Start(p.pcStart), EMPTY_ROW, [], p.initial, maxReg);
    InitialFrame(Start(p.pcStart), p.initial);
    ReplayIsLive(NOTHING, st, p.body, target, maxReg);
    LiveIsFaithful(r, ReplayRegs(map[], st.frame.regs, maxReg), st, row, stack, row.rules, p.body, target, maxReg);
  }

  /** Run to its end, a recorded program leaves the register as the table has it. */
  ghost predicate EndsAlike(r: nat, m: map<nat, int>, st: State, row: Row, stack: seq<Row>,
                            initial: map<int, Rule>, instrs: seq<Instr>, maxReg: nat) {
    Rows(st, instrs).Ok? ==>
      SameOffset(RunLive(st, m, instrs, TWO_64 - 1, maxReg).offsets,
                 RowFrom(ToU64(st.pc), row, stack, initial, instrs, TWO_64 - 1).rules, r)
  }

  lemma {:induction false} EndsAlikeStep(r: nat, m: map<nat, int>, st: State, row: Row, stack: seq<Row>,
                                         initial: map<int, Rule>, instrs: seq<Instr>, maxReg: nat)
    requires instrs != [] && Step(st, instrs[0]).Ok? && Followed(ToU64(st.pc), instrs)
    ensures var (st', reached) := Step(st, instrs[0]).value;
      if reached then
        EndsAlike(r, m, st, row, stack, initial, instrs, maxReg)
        == EndsAlike(r, m, Reopen(st'), row, stack, initial, instrs[1..], maxReg)
      else
        var (row', stack') := Execute(row, stack, initial, instrs[0]);
        EndsAlike(r, m, st, row, stack, initial, instrs, maxReg)
        == EndsAlike(r, ReplayRegs(m, st'.frame.regs[|st.frame.regs|..], maxReg), st', row', stack', initial,
                     instrs[1..], maxReg)
  {
    if IsAdvance(instrs[0]) {
      FollowsIff(st.pc, instrs[0]);
    }
  }

  /** Every prefix of the instructions ends alike exactly when every instruction is faithful. */
  lemma {:induction false} PrefixesEndAlikeIff(r: nat, m: map<nat, int>, st: State, row: Row, stack: seq<Row>,
                                               initial: map<int, Rule>, instrs: seq<Instr>, maxReg: nat)
    requires r < maxReg && Rows(st, instrs).Ok? && Followed(ToU64(st.pc), instrs) && SameOffset(m, row.rules, r)
    ensures FaithfulAll(r, row, stack, initial, instrs)
       <==> forall n :: 0 <= n <= |instrs| ==> EndsAlike(r, m, st, row, stack, initial, instrs[..n], maxReg)
    decreases instrs
  {
    if instrs == [] {
      assert instrs[..0] == [];
    } else {
      var (st', reached) := Step(st, instrs[0]).value;
      var next := if reached then Reopen(st') else st';
      var m' := if reached then m else ReplayRegs(m, st'.frame.regs[|st.frame.regs|..], maxReg);
      var (row', stack') := if reached then (row, stack) else Execute(row, stack, initial, instrs[0]);
      if reached {
        FollowsIff(st.pc, instrs[0]);
      } else {
        StepIsFaithfulIff(r, m, st, row, stack, initial, instrs[0], maxReg);
      }
      var rest := instrs[1..];
      forall n | 1 <= n <= |instrs|
        ensures EndsAlike(r, m, st, row, stack, initial, instrs[..n], maxReg)
             == EndsAlike(r, m', next, row', stack', initial, rest[..n - 1], maxReg)
      {
        FollowedPrefix(ToU64(st.pc), instrs, n);
        assert instrs[..n][1..] == rest[..n - 1];
        EndsAlikeStep(r, m, st, row, stack, initial, instrs[..n], maxReg);
      }
      if SameOffset(m', row'.rules, r) {
        PrefixesEndAlikeIff(r, m', next, row', stack', initial, rest, maxReg);
        if forall n :: 0 <= n <= |instrs| ==> EndsAlike(r, m, st, row, stack, initial, instrs[..n], maxReg) {
          forall n | 0 <= n <= |rest|
            ensures EndsAlike(r, m', next, row', stack', initial, rest[..n], maxReg)
          {
            assert EndsAlike(r, m, st, row, stack, initial, instrs[..n + 1], maxReg);
          }
        }
        assert instrs[..0] == [];
      } else {
        assert rest[..0] == [];
        assert !EndsAlike(r, m', next, row', stack', initial, rest[..1 - 1], maxReg);
        assert !EndsAlike(r, m, st, row, stack, initial, instrs[..1], maxReg);
      }
    }
  }

  ghost predicate RegisterAgrees(p: Program, r: nat, target: u64, maxReg: nat) {
    Load(p).Ok? && Progresses(p) && ToU64(p.pcStart) <= target ==>
      SameOffset(Replay(NOTHING, Load(p).value, target, maxReg).offsets, Table(p, target).rules, r)
  }

  lemma {:induction false} AgreesAsItEnds(p: Program, r: nat, st: State, maxReg: nat)
    requires RecordInitial(Start(p.pcStart), p.initial).Ok? && Progresses(p)
    requires st == RecordInitial(Start(p.pcStart), p.initial).value.(pc := p.pcStart)
    ensures var (row, stack) := ExecuteInitial(EMPTY_ROW, [], p.initial);
      RegisterAgrees(p, r, TWO_64 - 1, maxReg)
      <==> EndsAlike(r, ReplayRegs(map[], st.frame.regs, maxReg), st, row, stack, row.rules, p.body, maxReg)
  {
    if Rows(st, p.body).Ok? {
      InitialFrame(Start(p.pcStart), p.initial);
      ReplayIsLive(NOTHING, st, p.body, TWO_64 - 1, maxReg);
    }
  }

  /** The same of the initial instructions alone. */
  ghost predicate OpensAlike(r: nat, st: State, row: Row, stack: seq<Row>, instrs: seq<Instr>, maxReg: nat) {
    RecordInitial(st, instrs).Ok? ==>
      SameOffset(ReplayRegs(map[], RecordInitial(st, instrs).value.frame.regs, maxReg),
                 ExecuteInitial(row, stack, instrs).0.rules, r)
  }

  lemma {:induction false} OpensAlikeStep(r: nat, st: State, row: Row, stack: seq<Row>, instrs: seq<Instr>, maxReg: nat)
    requires instrs != [] && Step(st, instrs[0]).Ok?
    ensures var (st', _) := Step(st, instrs[0]).value;
      var (row', stack') := if IsAdvance(instrs[0]) then (row, stack) else Execute(row, stack, map[], instrs[0]);
      OpensAlike(r, st, row, stack, instrs, maxReg) == OpensAlike(r, st', row', stack', instrs[1..], maxReg)
  {
  }

  ghost predicate AllOpenAlike(r: nat, st: State, row: Row, stack: seq<Row>, instrs: seq<Instr>, maxReg: nat) {
    forall n :: 0 <= n <= |instrs| ==> OpensAlike(r, st, row, stack, instrs[..n], maxReg)
  }

  lemma {:induction false} AllOpenAlikeStep(r: nat, st: State, row: Row, stack: seq<Row>, instrs: seq<Instr>,
                                            st': State, row': Row, stack': seq<Row>, maxReg: nat)
    requires instrs != [] && Step(st, instrs[0]).Ok? && st' == Step(st, instrs[0]).value.0
    requires (row', stack') == if IsAdvance(instrs[0]) then (row, stack) else Execute(row, stack, map[], instrs[0])
    requires OpensAlike(r, st, row, stack, [], maxReg)
    ensures AllOpenAlike(r, st, row, stack, instrs, maxReg)
       <==> AllOpenAlike(r, st', row', stack', instrs[1..], maxReg)
  {
    var rest := instrs[1..];
    assert instrs[..0] == [];
    forall n | 0 <= n <= |rest|
      ensures OpensAlike(r, st, row, stack, instrs[..n + 1], maxReg)
           == OpensAlike(r, st', row', stack', rest[..n], maxReg)
    {
      assert instrs[..n + 1][1..] == rest[..n];
      OpensAlikeStep(r, st, row, stack, instrs[..n + 1], maxReg);
    }
    forall n | 1 <= n <= |instrs|
      ensures OpensAlike(r, st, row, stack, instrs[..n], maxReg)
           == OpensAlike(r, st', row', stack', rest[..n - 1], maxReg)
    {
      assert OpensAlike(r, st, row, stack, instrs[..n - 1 + 1], maxReg)
          == OpensAlike(r, st', row', stack', rest[..n - 1], maxReg);
    }
  }

  lemma {:induction false} RuleAfterStep(r: nat, st: State, row: Row, stack: seq<Row>, i: Instr, maxReg: nat)
    requires r < maxReg && Step(st, i).Ok? && SameOffset(ReplayRegs(map[], st.frame.regs, maxReg), row.rules, r)
    ensures var row' := if IsAdvance(i) then row else Execute(row, stack, map[], i).0;
      SameOffset(ReplayRegs(map[], Step(st, i).value.0.frame.regs, maxReg), row'.rules, r)
      <==> IsAdvance(i) || Faithful(r, row, stack, map[], i)
  {
    if !IsAdvance(i) {
      var st' := Step(st, i).value.0;
      StepIsFaithfulIff(r, ReplayRegs(map[], st.frame.regs, maxReg), st, row, stack, map[], i, maxReg);
      StepAddsAtMostOne(st, i);
      var added := st'.frame.regs[|st.frame.regs|..];
      assert st'.frame.regs == st.frame.regs + added;
      ReplayRegsAppend(map[], st.frame.regs, added, maxReg);
    }
  }

  /** Every prefix of the initial instructions ends alike exactly when every one of them is faithful. */
  lemma {:induction false} OpeningsAlikeIff(r: nat, st: State, row: Row, stack: seq<Row>, instrs: seq<Instr>,
                                            maxReg: nat)
    requires r < maxReg && RecordInitial(st, instrs).Ok?
    requires SameOffset(ReplayRegs(map[], st.frame.regs, maxReg), row.rules, r)
    ensures FaithfulAll(r, row, stack, map[], instrs) <==> AllOpenAlike(r, st, row, stack, instrs, maxReg)
    decreases instrs
  {
    if instrs == [] {
      assert instrs[..0] == [];
    } else {
      var i, st' := instrs[0], Step(st, instrs[0]).value.0;
      var (row', stack') := if IsAdvance(i) then (row, stack) else Execute(row, stack, map[], i);
      RuleAfterStep(r, st, row, stack, i, maxReg);
      AllOpenAlikeStep(r, st, row, stack, instrs, st', row', stack', maxReg);
      if SameOffset(ReplayRegs(map[], st'.frame.regs, maxReg), row'.rules, r) {
        OpeningsAlikeIff(r, st', row', stack', instrs[1..], maxReg);
      } else {
        assert instrs[1..][..0] == [];
        assert !OpensAlike(r, st', row', stack', [], maxReg);
      }
    }
  }

  lemma {:induction false} AgreesAsItOpens(p: Program, r: nat, n: nat, maxReg: nat)
    requires Load(p).Ok? && n <= |p.initial|
    ensures RegisterAgrees(Opening(p, n), r, TWO_64 - 1, maxReg)
       <==> OpensAlike(r, Start(p.pcStart), EMPTY_ROW, [], p.initial[..n], maxReg)
  {
    var q := Opening(p, n);
    OpeningIsFine(p, n);
    InitialFrame(Start(p.pcStart), q.initial);
    var frame := RecordInitial(Start(p.pcStart), q.initial).value.frame;
    assert Load(q) == Ok([frame]);
    assert [frame][1..] == [];
    assert Replay(NOTHING, [frame], TWO_64 - 1, maxReg) == Unwound(frame.cfa, ReplayRegs(map[], frame.regs, maxReg));
    assert Table(q, TWO_64 - 1) == ExecuteInitial(EMPTY_ROW, [], p.initial[..n]).0;
  }

  /** With its initial rule replayed, what a body begins with is exact for the body. */
  lemma {:induction false} BodyReplayedIffFaithful(p: Program, r: nat, maxReg: nat)
    requires Load(p).Ok? && Progresses(p) && r < maxReg
    requires OpensAlike(r, Start(p.pcStart), EMPTY_ROW, [], p.initial, maxReg)
    ensures FaithfulBody(p, r)
       <==> forall n :: 0 <= n <= |p.body| ==> RegisterAgrees(Beginning(p, n), r, TWO_64 - 1, maxReg)
  {
    var st := RecordInitial(Start(p.pcStart), p.initial).value.(pc := p.pcStart);
    var (row, stack) := ExecuteInitial(EMPTY_ROW, [], p.initial);
    var m := ReplayRegs(map[], st.frame.regs, maxReg);
    PrefixesEndAlikeIff(r, m, st, row, stack, row.rules, p.body, maxReg);
    forall n | 0 <= n <= |p.body|
      ensures RegisterAgrees(Beginning(p, n), r, TWO_64 - 1, maxReg)
         <==> EndsAlike(r, m, st, row, stack, row.rules, p.body[..n], maxReg)
    {
      BeginningIsFine(p, n);
      AgreesAsItEnds(Beginning(p, n), r, st, maxReg);
    }
  }

  /**
   The exact condition for one register: a program and everything it begins with are replayed as their tables
   have the register if and only if every instruction treats it faithfully.
   */
  lemma {:induction false} ReplayedIffFaithful(p: Program, r: nat, maxReg: nat)
    requires Load(p).Ok? && Progresses(p) && r < maxReg
    ensures forall n :: 0 <= n <= |p.initial| ==> Load(Opening(p, n)).Ok?
    ensures forall n :: 0 <= n <= |p.body| ==> Load(Beginning(p, n)).Ok?
    ensures FaithfulStart(p, r) && FaithfulBody(p, r)
       <==> (&& (forall n :: 0 <= n <= |p.initial| ==> RegisterAgrees(Opening(p, n), r, TWO_64 - 1, maxReg))
             && (forall n :: 0 <= n <= |p.body| ==> RegisterAgrees(Beginning(p, n), r, TWO_64 - 1, maxReg)))
  {
    var st := Start(p.pcStart);
    OpeningsAlikeIff(r, st, EMPTY_ROW, [], p.initial, maxReg);
    forall n | 0 <= n <= |p.initial|
      ensures Load(Opening(p, n)).Ok?
      ensures RegisterAgrees(Opening(p, n), r, TWO_64 - 1, maxReg)
         <==> OpensAlike(r, st, EMPTY_ROW, [], p.initial[..n], maxReg)
    {
      OpeningIsFine(p, n);
      AgreesAsItOpens(p, r, n, maxReg);
    }
    forall n | 0 <= n <= |p.body|
      ensures Load(Beginning(p, n)).Ok?
    {
      BeginningIsFine(p, n);
    }
    var all := |p.initial|;
    assert p.initial[..all] == p.initial;
    if OpensAlike(r, st, EMPTY_ROW, [], p.initial[..all], maxReg) {
      BodyReplayedIffFaithful(p, r, maxReg);
    } else {
      assert !RegisterAgrees(Opening(p, all), r, TWO_64 - 1, maxReg);
    }
  }

  // --- sets of instruction kinds ---------------------------------------------------------------

  datatype Kind =
    | KOffset | KValOffset | KUndefined | KSameValue | KRestore | KRegister | KExpression
    | KRemember | KRestoreState | KNoRegister

  function KindOf(i: Instr): Kind {
    match i
    case Offset(_, _) => KOffset
    case ValOffset(_, _) => KValOffset
    case Undefined(_) => KUndefined
    case SameValue(_) => KSameValue
    case Restore(_) => KRestore
    case Register(_, _) => KRegister
    case Expression(_) | ValExpression(_) => KExpression
    case RememberState => KRemember
    case RestoreState => KRestoreState
    case _ => KNoRegister
  }

  function RegisterOf(i: Instr): int {
    match i
    case Offset(r, _) => r
    case ValOffset(r, _) => r
    case Undefined(r) => r
    case SameValue(r) => r
    case Restore(r) => r
    case Register(r, _) => r
    case Expression(r) => r
    case ValExpression(r) => r
    case _ => 0
  }

  /** Instructions of the given kinds, with register operands below 2^63. */
  predicate Within(instrs: seq<Instr>, kinds: set<Kind>) {
    forall i :: i in instrs ==> KindOf(i) in kinds && RegisterOf(i) >= 0
  }

  predicate Uses(p: Program, kinds: set<Kind>) {
    Within(p.initial, kinds) && Within(p.body, kinds)
  }

  /** The masked registers are exactly those whose rule is an offset, with that offset. */
  predicate SameOffsets(m: map<nat, int>, rules: map<int, Rule>, maxReg: nat) {
    && (forall r :: r in m ==> r < maxReg)
    && forall r: nat :: r < maxReg ==> SameOffset(m, rules, r)
  }

  ghost predicate RegistersAgree(p: Program, target: u64, maxReg: nat) {
    Load(p).Ok? && Progresses(p) && ToU64(p.pcStart) <= target ==>
      SameOffsets(Replay(NOTHING, Load(p).value, target, maxReg).offsets, Table(p, target).rules, maxReg)
  }

  /** Every program of these kinds whose locations are followed is replayed to the register rules of its table. */
  ghost predicate Replayable(kinds: set<Kind>) {
    forall p: Program, target: u64, maxReg: nat :: Uses(p, kinds) ==> RegistersAgree(p, target, maxReg)
  }

  /** What can be replayed: no value offsets, and next to offsets only `undefined` to take one away again. */
  predicate Supported(kinds: set<Kind>) {
    && KValOffset !in kinds
    && (KOffset in kinds ==>
      && KSameValue !in kinds && KRestore !in kinds && KRegister !in kinds && KExpression !in kinds
      && !(KRemember in kinds && KRestoreState in kinds))
  }

  predicate NoOffsets(rules: map<int, Rule>) {
    forall r :: r in rules ==> !rules[r].OffsetRule?
  }

  /** Without offsets among the kinds there are none in the table; without remembered states the stack is empty. */
  predicate Bare(kinds: set<Kind>, row: Row, stack: seq<Row>, initial: map<int, Rule>) {
    if KOffset in kinds then KRemember !in kinds ==> stack == []
    else
      NoOffsets(row.rules) && NoOffsets(initial) && forall k :: 0 <= k < |stack| ==> NoOffsets(stack[k].rules)
  }

  lemma {:induction false} SupportedStep(kinds: set<Kind>, row: Row, stack: seq<Row>, initial: map<int, Rule>,
                                         i: Instr, r: nat)
    requires Supported(kinds) && KindOf(i) in kinds && RegisterOf(i) >= 0 && !IsAdvance(i)
    requires Bare(kinds, row, stack, initial)
    ensures Faithful(r, row, stack, initial, i)
    ensures var (row', stack') := Execute(row, stack, initial, i); Bare(kinds, row', stack', initial)
  {
  }

  lemma {:induction false} SupportedIsFaithful(kinds: set<Kind>, row: Row, stack: seq<Row>, initial: map<int, Rule>,
                                               instrs: seq<Instr>, r: nat)
    requires Supported(kinds) && Within(instrs, kinds) && Bare(kinds, row, stack, initial)
    ensures FaithfulAll(r, row, stack, initial, instrs)
    decreases instrs
  {
    if instrs != [] {
      if IsAdvance(instrs[0]) {
        SupportedIsFaithful(kinds, row, stack, initial, instrs[1..], r);
      } else {
        SupportedStep(kinds, row, stack, initial, instrs[0], r);
        var (row', stack') := Execute(row, stack, initial, instrs[0]);
        SupportedIsFaithful(kinds, row', stack', initial, instrs[1..], r);
      }
    }
  }

  lemma {:induction false} InitialIsBare(kinds: set<Kind>, row: Row, stack: seq<Row>, instrs: seq<Instr>)
    requires Supported(kinds) && Within(instrs, kinds) && Bare(kinds, row, stack, map[])
    ensures var (row', stack') := ExecuteInitial(row, stack, instrs); Bare(kinds, row', stack', map[])
    decreases instrs
  {
    if instrs != [] {
      if IsAdvance(instrs[0]) {
        InitialIsBare(kinds, row, stack, instrs[1..]);
      } else {
        SupportedStep(kinds, row, stack, map[], instrs[0], 0);
        var (row', stack') := Execute(row, stack, map[], instrs[0]);
        InitialIsBare(kinds, row', stack', instrs[1..]);
      }
    }
  }

  lemma {:induction false} ReplayedRegsBelow(m: map<nat, int>, regs: seq<RegState>, maxReg: nat)
    requires forall r :: r in m ==> r < maxReg
    ensures forall r :: r in ReplayRegs(m, regs, maxReg) ==> r < maxReg
  {
    if regs != [] {
      ReplayedRegsBelow(m, regs[..|regs| - 1], maxReg);
    }
  }

  lemma {:induction false} ReplayedBelow(u: Unwound, states: seq<FrameState>, rva: u64, maxReg: nat)
    requires forall r :: r in u.offsets ==> r < maxReg
    ensures forall r :: r in Replay(u, states, rva, maxReg).offsets ==> r < maxReg
    decreases states
  {
    if states != [] && states[0].rva <= rva {
      ReplayedRegsBelow(u.offsets, states[0].regs, maxReg);
      ReplayedBelow(Unwound(states[0].cfa, ReplayRegs(u.offsets, states[0].regs, maxReg)), states[1..], rva, maxReg);
    }
  }

  lemma {:induction false} SupportedAgrees(kinds: set<Kind>, p: Program, target: u64, maxReg: nat)
    requires Supported(kinds) && Uses(p, kinds)
    ensures RegistersAgree(p, target, maxReg)
  {
    if Load(p).Ok? && Progresses(p) && ToU64(p.pcStart) <= target {
      var (row, stack) := ExecuteInitial(EMPTY_ROW, [], p.initial);
      InitialIsBare(kinds, EMPTY_ROW, [], p.initial);
      ReplayedBelow(NOTHING, Load(p).value, target, maxReg);
      forall r: nat | r < maxReg
        ensures SameOffset(Replay(NOTHING, Load(p).value, target, maxReg).offsets, Table(p, target).rules, r)
      {
        SupportedIsFaithful(kinds, EMPTY_ROW, [], map[], p.initial, r);
        SupportedIsFaithful(kinds, row, stack, row.rules, p.body, r);
        FaithfulIsReplayed(p, r, target, maxReg);
      }
    }
  }

  /** Code that touches no register rule, however often it remembers and restores, is faithful to every register. */
  lemma {:induction false} BracketsAreFaithful(r: nat, row: Row, stack: seq<Row>, initial: map<int, Rule>,
                                               instrs: seq<Instr>)
    requires Within(instrs, {KNoRegister, KRemember, KRestoreState})
    requires forall k :: 0 <= k < |stack| ==> stack[k].rules == row.rules
    ensures FaithfulAll(r, row, stack, initial, instrs)
    decreases instrs
  {
    if instrs != [] {
      if IsAdvance(instrs[0]) {
        BracketsAreFaithful(r, row, stack, initial, instrs[1..]);
      } else {
        var (row', stack') := Execute(row, stack, initial, instrs[0]);
        assert KindOf(instrs[0]) in {KNoRegister, KRemember, KRestoreState};
        BracketsAreFaithful(r, row', stack', initial, instrs[1..]);
      }
    }
  }

  /**
   The usual shape of compiled code: registers are saved first, then only the CFA changes, with its states
   remembered and restored around each epilogue.  It is replayed for every register.
   */
  lemma {:induction false} SavesThenBrackets(r: nat, row: Row, initial: map<int, Rule>, saves: seq<Instr>,
                                             brackets: seq<Instr>)
    requires Within(saves, {KOffset, KUndefined, KNoRegister})
    requires Within(brackets, {KNoRegister, KRemember, KRestoreState})
    ensures FaithfulAll(r, row, [], initial, saves + brackets)
    decreases saves
  {
    if saves == [] {
      assert saves + brackets == brackets;
      BracketsAreFaithful(r, row, [], initial, brackets);
    } else {
      assert (saves + brackets)[1..] == saves[1..] + brackets;
      if IsAdvance(saves[0]) {
        SavesThenBrackets(r, row, initial, saves[1..], brackets);
      } else {
        var (row', stack') := Execute(row, [], initial, saves[0]);
        assert KindOf(saves[0]) in {KOffset, KUndefined, KNoRegister} && RegisterOf(saves[0]) >= 0;
        assert stack' == [];
        SavesThenBrackets(r, row', initial, saves[1..], brackets);
      }
    }
  }

  /** A body without locations is one row: it is replayed as a whole. */
  lemma {:induction false} OneRow(st: State, instrs: seq<Instr>)
    requires RecordInitial(st, instrs).Ok? && forall i :: i in instrs ==> !IsAdvance(i)
    ensures Rows(st, instrs) == Ok([RecordInitial(st, instrs).value.frame])
    decreases instrs
  {
    if instrs != [] {
      OneRow(Step(st, instrs[0]).value.0, instrs[1..]);
    }
  }

  lemma {:induction false} NoAdvanceIsFollowed(loc: u64, instrs: seq<Instr>)
    requires forall i :: i in instrs ==> !IsAdvance(i)
    ensures Followed(loc, instrs)
    decreases instrs
  {
    if instrs != [] {
      NoAdvanceIsFollowed(loc, instrs[1..]);
    }
  }

  /** A program whose body is one row, at its start: everything recorded against everything executed. */
  lemma {:induction false} OneRowProgram(body: seq<Instr>, maxReg: nat)
    requires RecordInitial(Start(0), body).Ok? && forall i :: i in body ==> !IsAdvance(i)
    ensures var p := Program(0, [], body);
      Load(p).Ok? && Progresses(p)
      && Replay(NOTHING, Load(p).value, 0, maxReg).offsets
         == ReplayRegs(map[], RecordInitial(Start(0), body).value.frame.regs, maxReg)
      && Table(p, 0) == RowFrom(0, EMPTY_ROW, [], map[], body, 0)
  {
    OneRow(Start(0), body);
    NoAdvanceIsFollowed(0, body);
    InitialFrame(Start(0), body);
    var p := Program(0, [], body);
    var frame := RecordInitial(Start(0), body).value.frame;
    assert Load(p) == Ok([frame]);
    assert [frame][1..] == [];
    var u := Unwound(frame.cfa, ReplayRegs(map[], frame.regs, maxReg));
    assert Replay(u, [], 0, maxReg) == u;
  }

  lemma {:induction false} RegisterZeroDiffers(body: seq<Instr>, regs: seq<RegState>, last: RegState)
    requires RecordInitial(Start(0), body).Ok? && forall i :: i in body ==> !IsAdvance(i)
    requires RecordInitial(Start(0), body).value.frame.regs == regs + [last]
    requires 0 in ReplayReg(ReplayRegs(map[], regs, 17), last, 17)
    requires var rules := RowFrom(0, EMPTY_ROW, [], map[], body, 0).rules; 0 !in rules || !rules[0].OffsetRule?
    ensures !RegistersAgree(Program(0, [], body), 0, 17)
  {
    OneRowProgram(body, 17);
    assert (regs + [last])[..|regs|] == regs;
    var n: nat := 0;
    assert n in ReplayRegs(map[], regs + [last], 17);
    assert !SameOffset(ReplayRegs(map[], regs + [last], 17), RowFrom(0, EMPTY_ROW, [], map[], body, 0).rules, n);
  }

  const SAVED := RegState(0, AtOffset, 8)

  lemma {:induction false} ValueOffsetTakenForOffset()
    ensures !RegistersAgree(Program(0, [], [ValOffset(0, 8)]), 0, 17)
  {
    var i := ValOffset(0, 8);
    assert [i][1..] == [];
    RegisterZeroDiffers([i], [], SAVED);
  }

  lemma {:induction false} RecordedAfterSave(i: Instr)
    requires i == SameValue(0) || i == Restore(0) || i == Register(0, 0) || i == Expression(0)
    ensures var r := RecordInitial(Start(0), [Offset(0, 8), i]);
      r.Ok? && (r.value.frame.regs == [] + [SAVED]
                || exists last :: r.value.frame.regs == [SAVED] + [last]
                                  && last.valType != AtOffset && last.valType != IsUndefined)
  {
    var body := [Offset(0, 8), i];
    assert body[1..] == [i] && [i][1..] == [];
    var st1 := Step(Start(0), body[0]).value.0;
    var st2 := Step(st1, i).value.0;
    assert RecordInitial(st1, [i]) == Ok(st2);
    if !i.SameValue? {
      assert st2.frame.regs == [SAVED] + [st2.frame.regs[1]];
    }
  }

  lemma {:induction false} ExecutedAfterSave(i: Instr)
    requires i == SameValue(0) || i == Restore(0) || i == Register(0, 0) || i == Expression(0)
    ensures var rules := RowFrom(0, EMPTY_ROW, [], map[], [Offset(0, 8), i], 0).rules;
      0 !in rules || !rules[0].OffsetRule?
  {
    var body := [Offset(0, 8), i];
    assert body[1..] == [i] && [i][1..] == [];
    var (row1, stack1) := Execute(EMPTY_ROW, [], map[], body[0]);
    assert RowFrom(0, row1, stack1, map[], [i], 0) == Execute(row1, stack1, map[], i).0;
  }

  /** Each instruction that replaces an offset by something the source does not replay. */
  lemma {:induction false} LostAfterSave(i: Instr)
    requires i == SameValue(0) || i == Restore(0) || i == Register(0, 0) || i == Expression(0)
    ensures !RegistersAgree(Program(0, [], [Offset(0, 8), i]), 0, 17)
  {
    RecordedAfterSave(i);
    ExecutedAfterSave(i);
    var body := [Offset(0, 8), i];
    var regs := RecordInitial(Start(0), body).value.frame.regs;
    assert [SAVED][..0] == [];
    if regs == [] + [SAVED] {
      RegisterZeroDiffers(body, [], SAVED);
    } else {
      var last :| regs == [SAVED] + [last] && last.valType != AtOffset && last.valType != IsUndefined;
      assert ReplayRegs(map[], [SAVED], 17) == map[0 := 8];
      RegisterZeroDiffers(body, [SAVED], last);
    }
  }

  const BRACKETED: seq<Instr> := [RememberState] + [Offset(0, 8)] + [RestoreState]

  lemma {:induction false} RecordedAcrossStates()
    ensures var r := RecordInitial(Start(0), BRACKETED); r.Ok? && r.value.frame.regs == [] + [SAVED]
  {
    var tail := [Offset(0, 8), RestoreState];
    assert BRACKETED[1..] == tail && tail[1..] == [RestoreState] && [RestoreState][1..] == [];
    var st1 := Step(Start(0), RememberState).value.0;
    var st2 := Step(st1, Offset(0, 8)).value.0;
    var st3 := Step(st2, RestoreState).value.0;
    assert RecordInitial(st2, [RestoreState]) == Ok(st3);
    assert RecordInitial(st1, tail) == Ok(st3);
  }

  lemma {:induction false} ExecutedAcrossStates()
    ensures RowFrom(0, EMPTY_ROW, [], map[], BRACKETED, 0) == EMPTY_ROW
  {
    var tail := [Offset(0, 8), RestoreState];
    assert BRACKETED[1..] == tail && tail[1..] == [RestoreState] && [RestoreState][1..] == [];
    var (row2, stack2) := Execute(EMPTY_ROW, [EMPTY_ROW], map[], Offset(0, 8));
    assert RowFrom(0, row2, stack2, map[], [RestoreState], 0) == EMPTY_ROW;
    assert RowFrom(0, EMPTY_ROW, [EMPTY_ROW], map[], tail, 0) == EMPTY_ROW;
    assert [] + [EMPTY_ROW] == [EMPTY_ROW];
  }

  /** The remembered state holds no register rules, so a rule added in between survives the restore. */
  lemma {:induction false} KeptAcrossStates()
    ensures !RegistersAgree(Program(0, [], BRACKETED), 0, 17)
  {
    RecordedAcrossStates();
    ExecutedAcrossStates();
    RegisterZeroDiffers(BRACKETED, [], SAVED);
  }

  /** The body of a program that is replayed wrongly, for every unsupported set of kinds. */
  function BadBody(kinds: set<Kind>): seq<Instr> {
    if KValOffset in kinds then [ValOffset(0, 8)]
    else if KRemember in kinds && KRestoreState in kinds then BRACKETED
    else if KSameValue in kinds then [Offset(0, 8), SameValue(0)]
    else if KRestore in kinds then [Offset(0, 8), Restore(0)]
    else if KRegister in kinds then [Offset(0, 8), Register(0, 0)]
    else [Offset(0, 8), Expression(0)]
  }

  lemma {:induction false} BadBodyWithin(kinds: set<Kind>)
    requires !Supported(kinds)
    ensures Within(BadBody(kinds), kinds)
  {
  }

  lemma {:induction false} BadBodyFails(kinds: set<Kind>)
    ensures !RegistersAgree(Program(0, [], BadBody(kinds)), 0, 17)
  {
    var body := BadBody(kinds);
    if KValOffset in kinds {
      ValueOffsetTakenForOffset();
      assert body == [ValOffset(0, 8)];
    } else if KRemember in kinds && KRestoreState in kinds {
      KeptAcrossStates();
      assert body == BRACKETED;
    } else {
      var i := body[1];
      assert body == [Offset(0, 8), i];
      LostAfterSave(i);
    }
  }

  /** The register half holds for a set of instruction kinds exactly when the source can replay them all. */
  lemma {:induction false} ReplayableIffSupported(kinds: set<Kind>)
    ensures Replayable(kinds) <==> Supported(kinds)
  {
    if Supported(kinds) {
      forall p: Program, target: u64, maxReg: nat | Uses(p, kinds)
        ensures RegistersAgree(p, target, maxReg)
      {
        SupportedAgrees(kinds, p, target, maxReg);
      }
    } else {
      BadBodyWithin(kinds);
      BadBodyFails(kinds);
      assert Uses(Program(0, [], BadBody(kinds)), kinds);
    }
  }

  /** The replay of some rows is the table of a program: its CFA rule, one register, and all of them when supported. */
  ghost predicate ReplaysTable(p: Program, rows: seq<FrameState>, target: u64, r: nat, maxReg: nat) {
    var u := Replay(NOTHING, rows, target, maxReg);
    Progresses(p) && ToU64(p.pcStart) <= target ==>
      && u.cfa.off == Table(p, target).cfaOff
      && (PlainCfa(p.initial) && PlainCfa(p.body) ==> u.cfa.reg == Table(p, target).cfaReg)
      && (FaithfulStart(p, r) && FaithfulBody(p, r) ==> SameOffset(u.offsets, Table(p, target).rules, r))
      && (forall kinds ::
            Supported(kinds) && Uses(p, kinds) ==> SameOffsets(u.offsets, Table(p, target).rules, maxReg))
  }

  lemma {:induction false} ProgramReplayIsTable(p: Program, target: u64, r: nat, maxReg: nat)
    requires Load(p).Ok? && r < maxReg
    ensures ReplaysTable(p, Load(p).value, target, r, maxReg)
  {
    if Progresses(p) && ToU64(p.pcStart) <= target {
      ReplayedCfaIsTableCfa(p, target, maxReg);
      if FaithfulStart(p, r) && FaithfulBody(p, r) {
        FaithfulIsReplayed(p, r, target, maxReg);
      }
      forall kinds | Supported(kinds) && Uses(p, kinds)
        ensures RegistersAgree(p, target, maxReg)
      {
        SupportedAgrees(kinds, p, target, maxReg);
      }
    }
  }

  /** All of it for a file: what load_rules then unwind_to_cfa give is the table of the decoded program. */
  lemma {:induction false} FileReplayIsTable(file: seq<u8>, pos: nat, target: u64, r: nat, maxReg: nat)
    requires LoadAt(file, pos).Ok? && r < maxReg
    ensures ProgramAt(file, pos).Ok?
    ensures ReplaysTable(ProgramAt(file, pos).value, LoadAt(file, pos).value.rows, target, r, maxReg)
  {
    LoadedIsProgram(file, pos);
    ProgramReplayIsTable(ProgramAt(file, pos).value, target, r, maxReg);
  }
}
