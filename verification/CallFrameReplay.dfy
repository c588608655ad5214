/** Replaying the delta list against the eager table: one pass, the locations, and the CFA rule. */
module CallFrameReplay {
  import opened MachineInt
  import opened Outcome
  import opened CallFrame
  import opened FrameRules
  import opened FrameOffsets
  import opened CallFrameTable

  /** The recorded program run in one pass, without deltas: CFA rule and live offsets at the target. */
  function RunLive(st: State, m: map<nat, int>, instrs: seq<Instr>, target: u64, maxReg: nat): Unwound
    requires Rows(st, instrs).Ok?
    decreases instrs
  {
    if instrs == [] then Unwound(st.frame.cfa, m)
    else
      var (st', reached) := Step(st, instrs[0]).value;
      if !reached then
        RunLive(st', ReplayRegs(m, st'.frame.regs[|st.frame.regs|..], maxReg), instrs[1..], target, maxReg)
      else if ToU64(st'.pc) > target then Unwound(st.frame.cfa, m)
      else RunLive(Reopen(st'), m, instrs[1..], target, maxReg)
  }

  lemma {:induction false} StepAddsAtMostOne(st: State, i: Instr)
    requires Step(st, i).Ok?
    ensures var st' := Step(st, i).value.0;
      st'.frame.regs == st.frame.regs
      || exists r :: st'.frame.regs == st.frame.regs + [r]
  {
  }

  lemma {:induction false} ReplayRegsAppend(m: map<nat, int>, a: seq<RegState>, b: seq<RegState>, maxReg: nat)
    requires |b| <= 1
    ensures ReplayRegs(m, a + b, maxReg) == ReplayRegs(ReplayRegs(m, a, maxReg), b, maxReg)
  {
    if b == [] {
      assert a + b == a;
    } else {
      assert (a + b)[..|a|] == a;
      assert ReplayRegs(ReplayRegs(m, a, maxReg), b[..0], maxReg) == ReplayRegs(m, a, maxReg);
    }
  }

  lemma {:induction false} RowsHead(st: State, instrs: seq<Instr>)
    requires Rows(st, instrs).Ok?
    ensures Rows(st, instrs).value != [] && Rows(st, instrs).value[0].rva == st.frame.rva
    decreases instrs
  {
    if instrs != [] {
      var (st', reached) := Step(st, instrs[0]).value;
      if !reached {
        RowsHead(st', instrs[1..]);
      }
    }
  }

  /** The delta list replayed up to the target is the program run in one pass up to the target. */
  lemma {:induction false} ReplayIsLive(u: Unwound, st: State, instrs: seq<Instr>, target: u64, maxReg: nat)
    requires Rows(st, instrs).Ok? && st.frame.rva <= target
    ensures Replay(u, Rows(st, instrs).value, target, maxReg)
         == RunLive(st, ReplayRegs(u.offsets, st.frame.regs, maxReg), instrs, target, maxReg)
    decreases instrs
  {
    var rows := Rows(st, instrs).value;
    if instrs == [] {
      assert rows[1..] == [];
    } else {
      var (st', reached) := Step(st, instrs[0]).value;
      if reached {
        var rest := Rows(Reopen(st'), instrs[1..]).value;
        assert rows[1..] == rest && rows[0] == st.frame;
        RowsHead(Reopen(st'), instrs[1..]);
        var u' := Unwound(st.frame.cfa, ReplayRegs(u.offsets, st.frame.regs, maxReg));
        if ToU64(st'.pc) <= target {
          ReplayIsLive(u', Reopen(st'), instrs[1..], target, maxReg);
        }
      } else {
        StepAddsAtMostOne(st, instrs[0]);
        ReplayIsLive(u, st', instrs[1..], target, maxReg);
        var added := st'.frame.regs[|st.frame.regs|..];
        assert st'.frame.regs == st.frame.regs + added;
        ReplayRegsAppend(u.offsets, st.frame.regs, added, maxReg);
      }
    }
  }

  // --- locations ------------------------------------------------------------------------------

  /** The location the table asks for is an address, and not before the current one as the source compares them. */
  predicate Follows(loc: u64, i: Instr)
    requires IsAdvance(i)
  {
    0 <= NextLoc(loc, i) < TWO_64 && ToI64(loc) <= ToI64(NextLoc(loc, i))
  }

  predicate Followed(loc: u64, instrs: seq<Instr>)
    decreases instrs
  {
    if instrs == [] then true
    else if IsAdvance(instrs[0]) then
      Follows(loc, instrs[0]) && Followed(NextLoc(loc, instrs[0]), instrs[1..])
    else Followed(loc, instrs[1..])
  }

  predicate Progresses(p: Program) { Followed(ToU64(p.pcStart), p.body) }

  lemma {:induction false} PatternOf(pc: i64)
    ensures ToI64(ToU64(pc)) == pc
  {
  }

  lemma {:induction false} SamePatternOf(a: int, b: int)
    requires a % TWO_64 == b % TWO_64
    ensures ToI64(a) == ToI64(b) && ToU64(a) == ToU64(b)
  {
  }

  lemma {:induction false} AdvancedPattern(pc: i64, delta: int)
    ensures ToI64(pc + delta) == ToI64(ToU64(pc) + delta)
  {
    if pc < 0 {
      ModTwo64(pc, 1);
      SmallMod(pc + TWO_64);
      ModTwo64(pc + delta, 1);
    } else {
      SmallMod(pc);
    }
    SamePatternOf(pc + delta, ToU64(pc) + delta);
  }

  /** The source moves to the location of the table exactly when it follows it. */
  lemma {:induction false} FollowsIff(pc: i64, i: Instr)
    requires IsAdvance(i)
    ensures ToU64(NextPc(pc, i)) == NextLoc(ToU64(pc), i) <==> Follows(ToU64(pc), i)
  {
    var next := NextLoc(ToU64(pc), i);
    PatternOf(pc);
    if i.SetLoc? {
      PatternOf(i.address);
    } else {
      AdvancedPattern(pc, i.delta);
    }
    if 0 <= next < TWO_64 {
      SmallMod(next);
    }
  }

  /** The locations of the table's rows, and those the source records. */
  function Locations(loc: int, instrs: seq<Instr>): seq<int>
    decreases instrs
  {
    if instrs == [] then []
    else if IsAdvance(instrs[0]) then
      [NextLoc(loc, instrs[0])] + Locations(NextLoc(loc, instrs[0]), instrs[1..])
    else Locations(loc, instrs[1..])
  }

  function RecordedLocations(pc: i64, instrs: seq<Instr>): seq<int>
    decreases instrs
  {
    if instrs == [] then []
    else if IsAdvance(instrs[0]) then
      [ToU64(NextPc(pc, instrs[0]))] + RecordedLocations(NextPc(pc, instrs[0]), instrs[1..])
    else RecordedLocations(pc, instrs[1..])
  }

  /** All recorded locations are those of the table exactly when every one is followed. */
  lemma {:induction false} LocationsAgreeIff(pc: i64, instrs: seq<Instr>)
    ensures RecordedLocations(pc, instrs) == Locations(ToU64(pc), instrs) <==> Followed(ToU64(pc), instrs)
    decreases instrs
  {
    if instrs != [] {
      if IsAdvance(instrs[0]) {
        FollowsIff(pc, instrs[0]);
        var (next, loc) := (NextPc(pc, instrs[0]), NextLoc(ToU64(pc), instrs[0]));
        LocationsAgreeIff(next, instrs[1..]);
        HeadAndTail(ToU64(next), RecordedLocations(next, instrs[1..]), loc, Locations(loc, instrs[1..]));
      } else {
        LocationsAgreeIff(pc, instrs[1..]);
      }
    }
  }

  lemma {:induction false} HeadAndTail(x: int, xs: seq<int>, y: int, ys: seq<int>)
    ensures [x] + xs == [y] + ys <==> x == y && xs == ys
  {
    assert ([x] + xs)[0] == x && ([y] + ys)[0] == y;
    assert ([x] + xs)[1..] == xs && ([y] + ys)[1..] == ys;
  }

  /** Locations that never go back and stay in the lower half of the address space. */
  predicate Forwards(loc: int, instrs: seq<Instr>)
    decreases instrs
  {
    if instrs == [] then true
    else if IsAdvance(instrs[0]) then
      loc <= NextLoc(loc, instrs[0]) < TWO_63 && Forwards(NextLoc(loc, instrs[0]), instrs[1..])
    else Forwards(loc, instrs[1..])
  }

  lemma {:induction false} ForwardsIsFollowed(loc: u64, instrs: seq<Instr>)
    requires loc < TWO_63 && Forwards(loc, instrs)
    ensures Followed(loc, instrs)
    decreases instrs
  {
    if instrs != [] {
      if IsAdvance(instrs[0]) {
        SmallMod(loc);
        SmallMod(NextLoc(loc, instrs[0]));
        ForwardsIsFollowed(NextLoc(loc, instrs[0]), instrs[1..]);
      } else {
        ForwardsIsFollowed(loc, instrs[1..]);
      }
    }
  }

  /** A location that goes back is not followed, and all later rows are recorded too far ahead. */
  lemma {:induction false} BackwardsIsMisplaced()
    ensures var p := Program(16, [], [SetLoc(8), Advance(10), DefCfaOffset(16)]);
      !Progresses(p) && Load(p).Ok?
      && Replay(NOTHING, Load(p).value, 20, 17).cfa.off == 0 && Table(p, 20).cfaOff == 16
  {
    var (a, b, c) := (SetLoc(8), Advance(10), DefCfaOffset(16));
    var p := Program(16, [], [a, b, c]);
    assert p.body[1..] == [b, c] && [b, c][1..] == [c] && [c][1..] == [];
    var st := Start(16);
    var st1 := Reopen(Step(st, a).value.0);
    var st2 := Reopen(Step(st1, b).value.0);
    var st3 := Step(st2, c).value.0;
    assert Rows(st2, [c]) == Ok([st3.frame]);
    assert Rows(st1, [b, c]) == Ok([st1.frame] + [st3.frame]);
    assert Load(p) == Ok([st.frame] + ([st1.frame] + [st3.frame]));
    ReplayIsLive(NOTHING, st, p.body, 20, 17);
    assert RunLive(st, map[], p.body, 20, 17) == RunLive(st1, map[], [b, c], 20, 17);
    assert RowFrom(18, EMPTY_ROW, [], map[], [c], 20).cfaOff == 16;
    assert RowFrom(8, EMPTY_ROW, [], map[], [b, c], 20).cfaOff == 16;
  }

  // --- the CFA rule ----------------------------------------------------------------------

  /** The CFA registers are given by numbers below 2^63. */
  predicate PlainCfa(instrs: seq<Instr>) {
    forall i :: i in instrs && (i.DefCfa? || i.DefCfaRegister?) ==> i.reg >= 0
  }

  /** The recorded CFA rule is the row's, its register number reduced to a byte unless it is known to fit. */
  predicate SameCfa(c: CfaState, row: Row, plain: bool) {
    c.reg == row.cfaReg % 256 && c.off == row.cfaOff && (plain ==> c.reg == row.cfaReg)
  }

  predicate SameStack(cs: seq<CfaState>, stack: seq<Row>, plain: bool) {
    |cs| == |stack| && forall k :: 0 <= k < |cs| ==> SameCfa(cs[k], stack[k], plain)
  }

  lemma {:induction false} StepKeepsCfa(st: State, row: Row, stack: seq<Row>, initial: map<int, Rule>, i: Instr,
                                        plain: bool)
    requires !IsAdvance(i) && Step(st, i).Ok? && (plain ==> PlainCfa([i]))
    requires SameCfa(st.frame.cfa, row, plain) && SameStack(st.cfaStack, stack, plain)
    ensures var (st', (row', stack')) := (Step(st, i).value.0, Execute(row, stack, initial, i));
      SameCfa(st'.frame.cfa, row', plain) && SameStack(st'.cfaStack, stack', plain)
  {
    assert i in [i];
  }

  lemma {:induction false} InitialKeepsCfa(st: State, row: Row, stack: seq<Row>, instrs: seq<Instr>, plain: bool)
    requires RecordInitial(st, instrs).Ok? && (plain ==> PlainCfa(instrs))
    requires SameCfa(st.frame.cfa, row, plain) && SameStack(st.cfaStack, stack, plain)
    ensures var (st', (row', stack')) := (RecordInitial(st, instrs).value, ExecuteInitial(row, stack, instrs));
      SameCfa(st'.frame.cfa, row', plain) && SameStack(st'.cfaStack, stack', plain)
    decreases instrs
  {
    if instrs != [] {
      var (st', _) := Step(st, instrs[0]).value;
      if IsAdvance(instrs[0]) {
        InitialKeepsCfa(st', row, stack, instrs[1..], plain);
      } else {
        StepKeepsCfa(st, row, stack, map[], instrs[0], plain);
        var (row', stack') := Execute(row, stack, map[], instrs[0]);
        InitialKeepsCfa(st', row', stack', instrs[1..], plain);
      }
    }
  }

  lemma {:induction false} LiveCfa(st: State, row: Row, stack: seq<Row>, initial: map<int, Rule>,
                                   m: map<nat, int>, instrs: seq<Instr>, target: u64, maxReg: nat, plain: bool)
    requires Rows(st, instrs).Ok? && Followed(ToU64(st.pc), instrs) && (plain ==> PlainCfa(instrs))
    requires SameCfa(st.frame.cfa, row, plain) && SameStack(st.cfaStack, stack, plain)
    ensures SameCfa(RunLive(st, m, instrs, target, maxReg).cfa,
                    RowFrom(ToU64(st.pc), row, stack, initial, instrs, target), plain)
    decreases instrs
  {
    if instrs != [] {
      var (st', reached) := Step(st, instrs[0]).value;
      if reached {
        FollowsIff(st.pc, instrs[0]);
        if ToU64(st'.pc) <= target {
          LiveCfa(Reopen(st'), row, stack, initial, m, instrs[1..], target, maxReg, plain);
        }
      } else {
        StepKeepsCfa(st, row, stack, initial, instrs[0], plain);
        var (row', stack') := Execute(row, stack, initial, instrs[0]);
        var m' := ReplayRegs(m, st'.frame.regs[|st.frame.regs|..], maxReg);
        LiveCfa(st', row', stack', initial, m', instrs[1..], target, maxReg, plain);
      }
    }
  }

  lemma {:induction false} InitialFrame(st: State, instrs: seq<Instr>)
    requires RecordInitial(st, instrs).Ok?
    ensures RecordInitial(st, instrs).value.frame.rva == st.frame.rva
    decreases instrs
  {
    if instrs != [] {
      InitialFrame(Step(st, instrs[0]).value.0, instrs[1..]);
    }
  }

  lemma {:induction false} CfaAgrees(p: Program, target: u64, maxReg: nat, plain: bool)
    requires Load(p).Ok? && Progresses(p) && ToU64(p.pcStart) <= target
    requires plain ==> PlainCfa(p.initial) && PlainCfa(p.body)
    ensures SameCfa(Replay(NOTHING, Load(p).value, target, maxReg).cfa, Table(p, target), plain)
  {
    var st := RecordInitial(Start(p.pcStart), p.initial).value.(pc := p.pcStart);
    var (row, stack) := ExecuteInitial(EMPTY_ROW, [], p.initial);
    InitialKeepsCfa(Start(p.pcStart), EMPTY_ROW, [], p.initial, plain);
    InitialFrame(Start(p.pcStart), p.initial);
    ReplayIsLive(NOTHING, st, p.body, target, maxReg);
    LiveCfa(st, row, stack, row.rules, ReplayRegs(map[], st.frame.regs, maxReg), p.body, target, maxReg, plain);
  }

  /**
   For every accepted program whose locations are followed and every address at or after its start, the
   replayed CFA offset is the table's.  The register is the table's reduced to a byte, and the table's itself
   when the program gives its CFA registers by numbers below 2^63.
   */
  lemma {:induction false} ReplayedCfaIsTableCfa(p: Program, target: u64, maxReg: nat)
    requires Load(p).Ok? && Progresses(p) && ToU64(p.pcStart) <= target
    ensures var (u, row) := (Replay(NOTHING, Load(p).value, target, maxReg), Table(p, target));
      && u.cfa.off == row.cfaOff && u.cfa.reg == row.cfaReg % 256
      && (PlainCfa(p.initial) && PlainCfa(p.body) ==> u.cfa.reg == row.cfaReg)
      && (u.cfa.reg == row.cfaReg <==> 0 <= row.cfaReg < 256)
  {
    CfaAgrees(p, target, maxReg, PlainCfa(p.initial) && PlainCfa(p.body));
  }

  lemma {:induction false} FollowedPrefix(loc: u64, instrs: seq<Instr>, n: nat)
    requires Followed(loc, instrs) && n <= |instrs|
    ensures Followed(loc, instrs[..n])
    decreases instrs
  {
    if n > 0 {
      assert instrs[..n][1..] == instrs[1..][..n - 1];
      FollowedPrefix(if IsAdvance(instrs[0]) then NextLoc(loc, instrs[0]) else loc, instrs[1..], n - 1);
    }
  }

  lemma {:induction false} RowsPrefix(st: State, instrs: seq<Instr>, n: nat)
    requires Rows(st, instrs).Ok? && n <= |instrs|
    ensures Rows(st, instrs[..n]).Ok?
    decreases instrs
  {
    if n > 0 {
      assert instrs[..n][1..] == instrs[1..][..n - 1];
      var (st', reached) := Step(st, instrs[0]).value;
      RowsPrefix(if reached then Reopen(st') else st', instrs[1..], n - 1);
    }
  }

  /** A program that breaks off in its body. */
  function Beginning(p: Program, n: nat): Program
    requires n <= |p.body|
  {
    p.(body := p.body[..n])
  }

  /** A program that breaks off in the initial instructions it shares with others. */
  function Opening(p: Program, n: nat): Program
    requires n <= |p.initial|
  {
    Program(p.pcStart, p.initial[..n], [])
  }

  /** What is accepted and followed is so from any beginning on. */
  lemma {:induction false} BeginningIsFine(p: Program, n: nat)
    requires Load(p).Ok? && Progresses(p) && n <= |p.body|
    ensures Load(Beginning(p, n)).Ok? && Progresses(Beginning(p, n))
  {
    FollowedPrefix(ToU64(p.pcStart), p.body, n);
    RowsPrefix(RecordInitial(Start(p.pcStart), p.initial).value.(pc := p.pcStart), p.body, n);
  }

  lemma {:induction false} InitialPrefix(st: State, instrs: seq<Instr>, n: nat)
    requires RecordInitial(st, instrs).Ok? && n <= |instrs|
    ensures RecordInitial(st, instrs[..n]).Ok?
    decreases instrs
  {
    if n > 0 {
      assert instrs[..n][1..] == instrs[1..][..n - 1];
      InitialPrefix(Step(st, instrs[0]).value.0, instrs[1..], n - 1);
    }
  }

  lemma {:induction false} OpeningIsFine(p: Program, n: nat)
    requires Load(p).Ok? && n <= |p.initial|
    ensures Load(Opening(p, n)).Ok? && Progresses(Opening(p, n))
    ensures RecordInitial(Start(p.pcStart), p.initial[..n]).Ok?
  {
    InitialPrefix(Start(p.pcStart), p.initial, n);
  }

  /** The last instruction of a program that gives the CFA register has the last word. */
  lemma {:induction false} LastCfaRegister(loc: u64, row: Row, stack: seq<Row>, initial: map<int, Rule>,
                                           instrs: seq<Instr>)
    requires instrs != [] && Followed(loc, instrs)
    requires instrs[|instrs| - 1].DefCfa? || instrs[|instrs| - 1].DefCfaRegister?
    ensures RowFrom(loc, row, stack, initial, instrs, TWO_64 - 1).cfaReg == instrs[|instrs| - 1].reg
    decreases instrs
  {
    if |instrs| > 1 {
      if IsAdvance(instrs[0]) {
        LastCfaRegister(NextLoc(loc, instrs[0]), row, stack, initial, instrs[1..]);
      } else {
        var (row', stack') := Execute(row, stack, initial, instrs[0]);
        LastCfaRegister(loc, row', stack', initial, instrs[1..]);
      }
    } else {
      assert instrs[1..] == [];
    }
  }

  lemma {:induction false} LastInitialRegister(row: Row, stack: seq<Row>, instrs: seq<Instr>)
    requires instrs != [] && (instrs[|instrs| - 1].DefCfa? || instrs[|instrs| - 1].DefCfaRegister?)
    ensures ExecuteInitial(row, stack, instrs).0.cfaReg == instrs[|instrs| - 1].reg
    decreases instrs
  {
    if |instrs| > 1 {
      if IsAdvance(instrs[0]) {
        LastInitialRegister(row, stack, instrs[1..]);
      } else {
        var (row', stack') := Execute(row, stack, map[], instrs[0]);
        LastInitialRegister(row', stack', instrs[1..]);
      }
    } else {
      assert instrs[1..] == [];
    }
  }

  /** At the end of a program the replayed CFA register is that of the table. */
  ghost predicate SameRegister(p: Program, maxReg: nat) {
    Load(p).Ok? && Replay(NOTHING, Load(p).value, TWO_64 - 1, maxReg).cfa.reg == Table(p, TWO_64 - 1).cfaReg
  }

  /**
   The condition is exact: a program and everything it begins with have the CFA register of their tables if
   and only if the program gives its CFA registers by numbers below 2^63.
   */
  lemma {:induction false} CfaRegisterIff(p: Program, maxReg: nat)
    requires Load(p).Ok? && Progresses(p)
    ensures PlainCfa(p.initial) && PlainCfa(p.body)
       <==> (&& (forall n :: 0 <= n <= |p.initial| ==> SameRegister(Opening(p, n), maxReg))
             && (forall n :: 0 <= n <= |p.body| ==> SameRegister(Beginning(p, n), maxReg)))
  {
    if PlainCfa(p.initial) && PlainCfa(p.body) {
      forall n | 0 <= n <= |p.initial|
        ensures SameRegister(Opening(p, n), maxReg)
      {
        OpeningIsFine(p, n);
        CfaAgrees(Opening(p, n), TWO_64 - 1, maxReg, true);
      }
      forall n | 0 <= n <= |p.body|
        ensures SameRegister(Beginning(p, n), maxReg)
      {
        BeginningIsFine(p, n);
        CfaAgrees(Beginning(p, n), TWO_64 - 1, maxReg, true);
      }
    } else if !PlainCfa(p.initial) {
      var k :| 0 <= k < |p.initial| && (p.initial[k].DefCfa? || p.initial[k].DefCfaRegister?) && p.initial[k].reg < 0;
      LastInitialRegister(EMPTY_ROW, [], p.initial[..k + 1]);
      assert !SameRegister(Opening(p, k + 1), maxReg);
    } else {
      var k :| 0 <= k < |p.body| && (p.body[k].DefCfa? || p.body[k].DefCfaRegister?) && p.body[k].reg < 0;
      var (row, stack) := ExecuteInitial(EMPTY_ROW, [], p.initial);
      BeginningIsFine(p, k + 1);
      LastCfaRegister(ToU64(p.pcStart), row, stack, row.rules, p.body[..k + 1]);
      assert !SameRegister(Beginning(p, k + 1), maxReg);
    }
  }

  /** Before the start of the program nothing is replayed. */
  lemma {:induction false} NothingBeforeStart(p: Program, target: u64, maxReg: nat)
    requires Load(p).Ok? && target < ToU64(p.pcStart)
    ensures Replay(NOTHING, Load(p).value, target, maxReg) == NOTHING
  {
    var st := RecordInitial(Start(p.pcStart), p.initial).value.(pc := p.pcStart);
    InitialFrame(Start(p.pcStart), p.initial);
    RowsHead(st, p.body);
  }

  /** A register operand of 2^63 or more is read as negative, passes the range check and loses all but its low byte. */
  lemma {:induction false} NegativeRegisterIsTruncated()
    ensures var p := Program(0, [], [DefCfaRegister(-1)]);
      Load(p).Ok? && Replay(NOTHING, Load(p).value, 0, 17).cfa.reg == 255 && Table(p, 0).cfaReg == -1
  {
  }
}
