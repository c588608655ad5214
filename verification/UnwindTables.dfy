/** Unwinding steps against the row tables of section 6.4 of DWARF 4. */
module UnwindTables {
  import opened MachineInt
  import opened Outcome
  import opened Processes
  import opened CallFrame
  import opened FrameRules
  import opened FrameOffsets
  import opened CallFrameTable
  import opened CallFrameReplay
  import opened CallFrameRegisters
  import opened UnwindSteps

  /** A program whose CFA, frame pointer and return address are replayed as its table has them. */
  predicate Unwindable(p: Program) {
    && Progresses(p) && PlainCfa(p.initial) && PlainCfa(p.body)
    && FaithfulStart(p, REG_RBP) && FaithfulBody(p, REG_RBP)
    && FaithfulStart(p, REG_RA) && FaithfulBody(p, REG_RA)
  }

  function CfaOf(cpu: Cpu, row: Row): u64
    requires 0 <= row.cfaReg <= REG_RA
  {
    ToU64(cpu.Register(row.cfaReg) + row.cfaOff)
  }

  /** Where a row says a register is saved can be read. */
  predicate Saved(env: Env, cfa: u64, row: Row, r: nat) {
    OffsetOf(row.rules, r).Some? && StackValue(env.base, cfa, OffsetOf(row.rules, r).value, env.stack).Some?
  }

  /** A row can be used: its CFA is above the stack pointer, and what it says is saved can be read. */
  predicate CanStep(env: Env, cpu: Cpu, row: Row) {
    && 0 <= row.cfaReg <= REG_RA && cpu.rsp < CfaOf(cpu, row) && Saved(env, CfaOf(cpu, row), row, REG_RA)
    && (OffsetOf(row.rules, REG_RBP).None? || Saved(env, CfaOf(cpu, row), row, REG_RBP))
  }

  /** The caller's registers by a row: RSP is the CFA, the others are read from where the row saves them. */
  predicate StepsByRow(env: Env, cpu: Cpu, row: Row, ip: Option<u64>, next: Cpu) {
    && CanStep(env, cpu, row)
    && var cfa := CfaOf(cpu, row);
    && next.rsp == cfa
    && ip == StackValue(env.base, cfa, OffsetOf(row.rules, REG_RA).value, env.stack)
    && (if OffsetOf(row.rules, REG_RBP).None? then next.rbp == cpu.rbp
        else Some(next.rbp) == StackValue(env.base, cfa, OffsetOf(row.rules, REG_RBP).value, env.stack))
  }

  /** What was replayed is what the row has for the CFA and the two registers. */
  predicate Replayed(u: Unwound, row: Row) {
    && u.cfa.reg == row.cfaReg && u.cfa.off == row.cfaOff
    && SameOffset(u.offsets, row.rules, REG_RBP) && SameOffset(u.offsets, row.rules, REG_RA)
  }

  /** What is wrong with a row that cannot be used. */
  function Objection(env: Env, cpu: Cpu, row: Row): Option<UnwindError>
    requires 0 <= row.cfaReg
  {
    if row.cfaReg > REG_RA then Some(RegisterOutOfRange)
    else if OffsetOf(row.rules, REG_RA).None? then Some(NoReturnAddressRegister)
    else if CfaOf(cpu, row) <= cpu.rsp then Some(CfaWouldGoBackwards)
    else if OffsetOf(row.rules, REG_RBP).Some? && !Saved(env, CfaOf(cpu, row), row, REG_RBP) then Some(BadStackRbpRead)
    else if !Saved(env, CfaOf(cpu, row), row, REG_RA) then Some(BadStackIpRead)
    else None
  }

  /** A step that fails says what is wrong with the row; one that does not leaves the error as it was. */
  lemma {:induction false} ApplyRowObjects(env: Env, cpu: Cpu, u: Unwound, row: Row, error: Option<UnwindError>)
    requires Replayed(u, row)
    ensures var (r, why) := (ApplyRow(env, cpu, u, error), Objection(env, cpu, row));
      && (why == None <==> CanStep(env, cpu, row))
      && r.error == (if why == None then error else why)
      && (why != None ==> r.ip == None)
  {
  }

  lemma {:induction false} OutsideIff(start: u64, pcSize: u64, rva: u64)
    requires start <= rva && start + pcSize < TWO_64
    ensures Outside(start, pcSize, rva) <==> 0 < pcSize <= rva - start
  {
    SmallMod(start + pcSize);
  }

  /** Rules are found where a loaded entry reaches: up to its end, or without a bound if it declares none. */
  lemma {:induction false} RowsReach(file: ElfFile, search: Search, rva: u64, i: nat, start: u64, loaded: Loaded)
    requires EntryFor(file.table, search, rva) == Some(i) && start == file.table[i].0
    requires LoadAt(file.image, file.table[i].1) == Ok(loaded) && start + loaded.pcSize < TWO_64
    ensures RowsFor(file, search, rva)
         == if loaded.pcSize == 0 || rva - start < loaded.pcSize then Some(loaded.rows) else None
  {
    OutsideIff(start, loaded.pcSize, rva);
  }

  lemma {:induction false} NoRowsReach(file: ElfFile, search: Search, rva: u64)
    requires match EntryFor(file.table, search, rva)
      case None => true
      case Some(i) => LoadAt(file.image, file.table[i].1).Err?
    ensures RowsFor(file, search, rva) == None
  {
  }

  /** Applying what was replayed is a step by the row, and fails exactly when the row cannot be used. */
  lemma {:induction false} ApplyRowIsTableStep(env: Env, cpu: Cpu, u: Unwound, row: Row, error: Option<UnwindError>)
    requires Replayed(u, row)
    ensures var r := ApplyRow(env, cpu, u, error);
      && (r.ip.Some? <==> CanStep(env, cpu, row))
      && (r.ip.Some? ==> StepsByRow(env, cpu, row, r.ip, r.cpu))
  {
  }

  lemma {:induction false} LoadedIsReplayed(file: seq<u8>, pos: nat, rva: u64)
    requires LoadAt(file, pos).Ok?
    ensures ProgramAt(file, pos).Ok?
    ensures var p := ProgramAt(file, pos).value;
      var u := Replay(NOTHING, LoadAt(file, pos).value.rows, rva, REG_RA + 1);
      && (Unwindable(p) && ToU64(p.pcStart) <= rva ==> Replayed(u, Table(p, rva)))
      && (rva < ToU64(p.pcStart) ==> u == NOTHING)
  {
    LoadedIsProgram(file, pos);
    var p := ProgramAt(file, pos).value;
    if rva < ToU64(p.pcStart) {
      NothingBeforeStart(p, rva, REG_RA + 1);
    } else if Unwindable(p) {
      ReplayedCfaIsTableCfa(p, rva, REG_RA + 1);
      FaithfulIsReplayed(p, REG_RBP, rva, REG_RA + 1);
      FaithfulIsReplayed(p, REG_RA, rva, REG_RA + 1);
    }
  }

  /** The program an address of a module is unwound with. */
  function ProgramFor(env: Env, key: ModuleKey, rva: u64): Option<Program> {
    if key !in env.files then None
    else
      var file := env.files[key];
      match EntryFor(file.table, env.search, rva)
      case None => None
      case Some(i) =>
        match ProgramAt(file.image, file.table[i].1)
        case Err(_) => None
        case Ok(p) => Some(p)
  }

  /** A step that finds its caller with the rules of a module goes by the row its table has for the address. */
  lemma {:induction false} ModuleStepIsTableStep(env: Env, cpu: Cpu, key: ModuleKey, rva: u64,
                                                 error: Option<UnwindError>)
    requires ModuleStep(env, cpu, key, rva, error).ip.Some?
    ensures ProgramFor(env, key, rva).Some?
    ensures var (p, r) := (ProgramFor(env, key, rva).value, ModuleStep(env, cpu, key, rva, error));
      Unwindable(p) ==> StepsByRow(env, cpu, Table(p, rva), r.ip, r.cpu)
  {
    var file := env.files[key];
    var pos := file.table[EntryFor(file.table, env.search, rva).value].1;
    LoadedIsReplayed(file.image, pos, rva);
    var p := ProgramAt(file.image, pos).value;
    if Unwindable(p) {
      ApplyRowIsTableStep(env, cpu, Replay(NOTHING, LoadAt(file.image, pos).value.rows, rva, REG_RA + 1),
                          Table(p, rva), error);
    }
  }

  /** So does every turn of a run that ends up with such a caller. */
  lemma {:induction false} DwarfStepIsTableStep(env: Env, cpu: Cpu, error: Option<UnwindError>)
    requires InModule(env, cpu.rip) && UnwindStep(env, cpu, error).how == ByDwarf
    ensures var m := Covering(env.mods, cpu.rip).value;
      var (found, r) := (ProgramFor(env, m.key, m.Rva(cpu.rip)), UnwindStep(env, cpu, error));
      && found.Some? && r.ip == Some(r.cpu.rip)
      && (Unwindable(found.value) ==> StepsByRow(env, cpu, Table(found.value, m.Rva(cpu.rip)), r.ip, r.cpu))
  {
    var m := Covering(env.mods, cpu.rip).value;
    ByDwarfIsModuleStep(env, cpu, m, error);
    ModuleStepIsTableStep(env, cpu, m.key, m.Rva(cpu.rip), error);
  }

  lemma {:induction false} ByDwarfIsModuleStep(env: Env, cpu: Cpu, m: Module, error: Option<UnwindError>)
    requires InModule(env, cpu.rip) && m == Covering(env.mods, cpu.rip).value
    requires UnwindStep(env, cpu, error).how == ByDwarf
    ensures var (r, s) := (UnwindStep(env, cpu, error), ModuleStep(env, cpu, m.key, m.Rva(cpu.rip), error));
      s.ip.Some? && r.ip == s.ip && r.cpu == s.cpu.(rip := s.ip.value)
  {
    RecoveredByDwarf(env, cpu, FrameStep(env, cpu, m, error));
    FrameByDwarf(env, cpu, m, error);
  }

  lemma {:induction false} RecoveredByDwarf(env: Env, before: Cpu, r: StepResult)
    requires Recover(env, before, r).how == ByDwarf
    ensures Recover(env, before, r) == r
  {
    NotByDwarf(env, r.cpu.(rsp := before.rsp, rbp := before.rbp), r.error);
  }

  lemma {:induction false} FrameByDwarf(env: Env, cpu: Cpu, m: Module, error: Option<UnwindError>)
    requires FrameStep(env, cpu, m, error).how == ByDwarf
    ensures FrameStep(env, cpu, m, error) == ModuleStep(env, cpu, m.key, m.Rva(cpu.rip), error)
    ensures FrameStep(env, cpu, m, error).ip.Some?
  {
    var s := ModuleStep(env, cpu, m.key, m.Rva(cpu.rip), error);
    NotByDwarf(env, cpu, error);
    NotByDwarf(env, s.cpu, None);
    ModuleByDwarf(env, cpu, m.key, m.Rva(cpu.rip), error);
  }

  lemma {:induction false} ModuleByDwarf(env: Env, cpu: Cpu, key: ModuleKey, rva: u64, error: Option<UnwindError>)
    ensures var s := ModuleStep(env, cpu, key, rva, error); s.how == ByDwarf <==> s.ip.Some?
  {
    var rows := FrameRows(env, key, rva);
    if rows.Some? {
      ApplyRowMovesRsp(env, cpu, Replay(NOTHING, rows.value, rva, REG_RA + 1), error);
    }
  }

  lemma {:induction false} NotByDwarf(env: Env, cpu: Cpu, error: Option<UnwindError>)
    ensures PrologStep(env, cpu, error).how != ByDwarf
  {
  }
}
