/** Whole unwind runs: the loop, its frame cap and clean-up, and the machine that owns the first frame. */
module UnwindRuns {
  import opened MachineInt
  import opened Outcome
  import opened Sorting
  import opened Processes
  import opened CallFrame
  import opened FrameRules
  import opened FrameOffsets
  import opened UnwindSteps

  const MAX_FRAMES: nat := 128

  // --- specification -----------------------------------------------------------------------------

  /** Frames pushed by the loop, the error left behind, and whether a failed step ended the run. */
  datatype Ran = Ran(frames: seq<u64>, error: Option<UnwindError>, failed: bool)

  /** The run from a machine state, given the frames pushed so far. */
  function RunFrom(env: Env, cpu: Cpu, error: Option<UnwindError>, pushed: seq<u64>): Ran
    requires |pushed| <= MAX_FRAMES
    decreases MAX_FRAMES - |pushed|
  {
    if !InModule(env, cpu.rip) then Ran(pushed, error, false)
    else
      var r := UnwindStep(env, cpu, error);
      if r.ip.None? then Ran(pushed, r.error, true)
      else
        var more := pushed + [r.ip.value];
        if |more| > MAX_FRAMES || r.ip.value == 0 then Ran(more, r.error, false)
        else RunFrom(env, r.cpu, r.error, more)
  }

  /** The last frame is dropped unless a failed step ended the run or it is the only one. */
  function CleanUp(all: seq<u64>, failed: bool): seq<u64> {
    if !failed && |all| > 1 then all[..|all| - 1] else all
  }

  function RunOf(env: Env, rip: u64, rbp: u64): Ran {
    RunFrom(env, Cpu(rip, env.base, rbp), None, [rip])
  }

  /** What one unwind adds to the caller's vector. */
  function FramesOf(env: Env, rip: u64, rbp: u64): seq<u64> {
    CleanUp(RunOf(env, rip, rbp).frames, RunOf(env, rip, rbp).failed)
  }

  /** The machine state at the head of the n-th turn, if the run gets that far. */
  function StateAt(env: Env, cpu: Cpu, error: Option<UnwindError>, n: nat): Option<(Cpu, Option<UnwindError>)> {
    if n == 0 then Some((cpu, error))
    else
      match StateAt(env, cpu, error, n - 1)
      case None => None
      case Some((c, e)) =>
        if !InModule(env, c.rip) then None
        else
          var r := UnwindStep(env, c, e);
          if r.ip.None? || r.ip.value == 0 then None else Some((r.cpu, r.error))
  }

  // --- properties of every run -----------------------------------------------------------------------

  /** All frames from the second on, up to a bound, lie in modules. */
  predicate InModulesUpTo(env: Env, frames: seq<u64>, n: int) {
    forall i :: 1 <= i < n && i < |frames| ==> InModule(env, frames[i])
  }

  lemma {:induction false} RunShape(env: Env, cpu: Cpu, error: Option<UnwindError>, pushed: seq<u64>)
    requires 1 <= |pushed| <= MAX_FRAMES && InModulesUpTo(env, pushed, |pushed| - 1)
    requires cpu.rip == pushed[|pushed| - 1]
    ensures var ran := RunFrom(env, cpu, error, pushed);
      && pushed <= ran.frames && |ran.frames| <= MAX_FRAMES + 1
      && InModulesUpTo(env, ran.frames, |ran.frames| - 1)
      && (ran.failed ==> |ran.frames| <= MAX_FRAMES && InModulesUpTo(env, ran.frames, |ran.frames|))
    decreases MAX_FRAMES - |pushed|
  {
    if InModule(env, cpu.rip) {
      var r := UnwindStep(env, cpu, error);
      if r.ip.Some? {
        var more := pushed + [r.ip.value];
        assert InModulesUpTo(env, more, |more| - 1);
        if |more| <= MAX_FRAMES && r.ip.value != 0 {
          RunShape(env, r.cpu, r.error, more);
        }
      }
    }
  }

  /** Between 1 and 128 frames; the first is the sampled address, every other one lies in a module. */
  lemma {:induction false} FramesAreBounded(env: Env, rip: u64, rbp: u64)
    ensures var frames := FramesOf(env, rip, rbp);
      && 1 <= |frames| <= MAX_FRAMES && frames[0] == rip
      && forall i :: 1 <= i < |frames| ==> InModule(env, frames[i])
  {
    RunShape(env, Cpu(rip, env.base, rbp), None, [rip]);
  }

  lemma {:induction false} PrologError(env: Env, cpu: Cpu, error: Option<UnwindError>)
    requires error != Some(NoModuleFound)
    ensures PrologStep(env, cpu, error).error != Some(NoModuleFound)
  {
  }

  lemma {:induction false} FrameError(env: Env, cpu: Cpu, m: Module, error: Option<UnwindError>)
    requires error != Some(NoModuleFound)
    ensures FrameStep(env, cpu, m, error).error != Some(NoModuleFound)
  {
    var r := ModuleStep(env, cpu, m.key, m.Rva(cpu.rip), error);
    PrologError(env, cpu, error);
    PrologError(env, r.cpu, None);
    var rows := FrameRows(env, m.key, m.Rva(cpu.rip));
    if rows.Some? {
      ApplyRowMovesRsp(env, cpu, Replay(NOTHING, rows.value, m.Rva(cpu.rip), REG_RA + 1), error);
    }
  }

  lemma {:induction false} StepError(env: Env, cpu: Cpu, error: Option<UnwindError>)
    requires InModule(env, cpu.rip) && error != Some(NoModuleFound)
    ensures var r := UnwindStep(env, cpu, error); r.ip.Some? ==> r.error != Some(NoModuleFound)
  {
    var m := Covering(env.mods, cpu.rip).value;
    FrameError(env, cpu, m, error);
    var r := FrameStep(env, cpu, m, error);
    PrologError(env, r.cpu.(rsp := cpu.rsp, rbp := cpu.rbp), r.error);
  }

  /** At the head of every turn of every run RSP is at or above where the captured stack starts. */
  lemma {:induction false} RspStaysAboveBase(env: Env, cpu: Cpu, error: Option<UnwindError>, n: nat)
    requires WindowFits(env) && env.base <= cpu.rsp && error != Some(NoModuleFound)
    ensures match StateAt(env, cpu, error, n)
      case None => true
      case Some((c, e)) =>
        env.base <= c.rsp && e != Some(NoModuleFound)
        && (InModule(env, c.rip) ==> MovesRsp(env, c.rsp, UnwindStep(env, c, e)))
  {
    if n > 0 {
      RspStaysAboveBase(env, cpu, error, n - 1);
      if StateAt(env, cpu, error, n - 1).Some? {
        var (c, e) := StateAt(env, cpu, error, n - 1).value;
        if InModule(env, c.rip) {
          StepMovesRsp(env, c, e);
          StepError(env, c, e);
        }
      }
    }
    if StateAt(env, cpu, error, n).Some? {
      var (c, e) := StateAt(env, cpu, error, n).value;
      if InModule(env, c.rip) {
        StepMovesRsp(env, c, e);
      }
    }
  }

  // --- the cache of frame offsets ------------------------------------------------------------------------

  datatype CachedState = NotParsed | Bad | Good(loaded: Loaded)

  datatype CachedFrame = CachedFrame(rva: u64, fde: nat, state: CachedState)

  /** A parsed entry holds what parsing the file gives. */
  predicate Honest(entry: CachedFrame, image: seq<u8>) {
    && (entry.state.Bad? ==> LoadAt(image, entry.fde).Err?)
    && (entry.state.Good? ==> LoadAt(image, entry.fde) == Ok(entry.state.loaded))
  }

  /** Cached entries mirror the file's table. */
  predicate Mirrors(entries: seq<CachedFrame>, file: ElfFile) {
    && |entries| == |file.table|
    && forall i :: 0 <= i < |entries| ==>
      entries[i].rva == file.table[i].0 && entries[i].fde == file.table[i].1 && Honest(entries[i], file.image)
  }

  lemma {:induction false} StillMirrors(entries: seq<CachedFrame>, file: ElfFile, i: nat, entry: CachedFrame)
    requires Mirrors(entries, file) && i < |entries| && Honest(entry, file.image)
    requires entry.rva == entries[i].rva && entry.fde == entries[i].fde
    ensures Mirrors(entries[i := entry], file)
  {
  }

  predicate CacheOk(cache: map<ModuleKey, seq<CachedFrame>>, files: map<ModuleKey, ElfFile>) {
    forall k :: k in cache ==> if k in files then Mirrors(cache[k], files[k]) else cache[k] == []
  }

  // --- the unwinder -----------------------------------------------------------------------------------------

  class UnwindResult {
    var framesPushed: nat
    var error: Option<UnwindError>

    constructor ()
      ensures framesPushed == 0 && error == None
    {
      framesPushed, error := 0, None;
    }
  }

  class Unwinder {
    var frameCache: map<ModuleKey, seq<CachedFrame>>
    var registers: seq<u64>
    var rip: u64
    var rsp: u64

    constructor ()
      ensures frameCache == map[] && registers == [] && rip == 0 && rsp == 0
    {
      frameCache, registers, rip, rsp := map[], [], 0, 0;
    }

    predicate Ready()
      reads this
    {
      |registers| == REG_RA + 1
      && forall i :: 0 <= i < |registers| && i != REG_RBP && i != REG_RSP ==> registers[i] == 0
    }

    function Current(): Cpu
      reads this
      requires Ready()
    {
      Cpu(rip, registers[REG_RSP], registers[REG_RBP])
    }

    method Reset(rip: u64, rbp: u64, rsp: u64)
      modifies this
      ensures Ready() && Current() == Cpu(rip, rsp, rbp) && this.rsp == rsp && frameCache == old(frameCache)
    {
      registers := seq(REG_RA + 1, _ => 0);
      registers := registers[REG_RBP := rbp][REG_RSP := rsp];
      this.rip := rip;
      this.rsp := rsp;
    }

    method SetFrame(rsp: u64, rbp: u64)
      requires Ready()
      modifies this`registers
      ensures Ready() && Current() == Cpu(rip, rsp, rbp)
    {
      registers := registers[REG_RSP := rsp][REG_RBP := rbp];
    }

    /** The first lookup of a module loads its table, or nothing if its file cannot be opened. */
    method FillCache(files: map<ModuleKey, ElfFile>, key: ModuleKey)
      requires CacheOk(frameCache, files)
      modifies this`frameCache
      ensures CacheOk(frameCache, files) && key in frameCache
    {
      if key !in frameCache {
        var entries: seq<CachedFrame> := [];
        if key in files {
          var table := files[key].table;
          entries := seq(|table|, i requires 0 <= i < |table| => CachedFrame(table[i].0, table[i].1, NotParsed));
        }
        frameCache := frameCache[key := entries];
      }
    }

    /** What parsing an entry leaves it as. */
    static method LoadState(image: seq<u8>, rva: u64, fde: nat) returns (state: CachedState)
      ensures !state.NotParsed? && Honest(CachedFrame(rva, fde, state), image)
    {
      var offset := new FrameOffset(rva, fde);
      var parsed := offset.LoadRules(image);
      if parsed.Err? {
        return Bad;
      }
      ghost var rows := LoadAt(image, fde).value.rows;
      assert [] + rows == rows;
      return Good(Loaded(offset.pcSize, offset.retReg, offset.frameStates));
    }

    /** The lookup of one entry parses it if that was not done before. */
    method ParseEntry(files: map<ModuleKey, ElfFile>, key: ModuleKey, i: nat) returns (entry: CachedFrame)
      requires CacheOk(frameCache, files) && key in files && key in frameCache && i < |frameCache[key]|
      modifies this`frameCache
      ensures CacheOk(frameCache, files)
      ensures entry == CachedFrame(files[key].table[i].0, files[key].table[i].1, entry.state)
      ensures !entry.state.NotParsed? && Honest(entry, files[key].image)
    {
      var entries := frameCache[key];
      entry := entries[i];
      if entry.state.NotParsed? {
        var state := LoadState(files[key].image, entry.rva, entry.fde);
        entry := entry.(state := state);
        StillMirrors(entries, files[key], i, entry);
        frameCache := frameCache[key := entries[i := entry]];
      }
    }

    /** get_frame_offset: fills and parses lazily; the answer is the one an uncached lookup gives. */
    method GetFrameOffset(files: map<ModuleKey, ElfFile>, search: Search, key: ModuleKey, rva: u64)
      returns (r: Option<seq<FrameState>>)
      requires CacheOk(frameCache, files)
      modifies this`frameCache
      ensures CacheOk(frameCache, files)
      ensures r == if key in files then RowsFor(files[key], search, rva) else None
    {
      FillCache(files, key);
      if key !in files {
        return None;
      }
      var i := FindEntry(frameCache[key], files[key], search, rva);
      if i.None? {
        return None;
      }
      var entry := ParseEntry(files, key, i.value);
      if entry.state.Bad? || Outside(entry.rva, entry.state.loaded.pcSize, rva) {
        return None;
      }
      return Some(entry.state.loaded.rows);
    }

    /** find: the entry before the partition point, if it is at or below the address. */
    static method FindEntry(entries: seq<CachedFrame>, ghost file: ElfFile, search: Search, rva: u64)
      returns (r: Option<nat>)
      requires Mirrors(entries, file)
      ensures r == EntryFor(file.table, search, rva)
    {
      if entries == [] {
        return None;
      }
      var addresses := seq(|entries|, i requires 0 <= i < |entries| => entries[i].rva);
      assert addresses == Addresses(file.table);
      var index := search(addresses, rva);
      index := Before(index, |entries|);
      return if entries[index].rva <= rva then Some(index) else None;
    }

    /** The chain part of unwind_prolog. */
    method WalkChain(env: Env, maxCfa: u64) returns (r: Option<Link>)
      requires Ready()
      ensures r == Chain(env, registers[REG_RBP], maxCfa, [])
    {
      var chainRbp: u64 := registers[REG_RBP];
      var depth := 0;
      ghost var followed: seq<u64> := [];
      while depth < MAX_CHAIN
        invariant depth == |followed| <= MAX_CHAIN
        invariant Chain(env, registers[REG_RBP], maxCfa, []) == Chain(env, chainRbp, maxCfa, followed)
      {
        var saved := StackValue(env.base, chainRbp, 0, env.stack);
        if saved.None? {
          return None;
        }
        var ret := StackValue(env.base, chainRbp, 8, env.stack);
        if ret.None? {
          return None;
        }
        if Covering(env.mods, ret.value).Some? {
          return Some(Link(chainRbp, saved.value, ret.value));
        }
        if saved.value <= chainRbp || saved.value > maxCfa || saved.value % 8 != 0 {
          return None;
        }
        followed := followed + [chainRbp];
        chainRbp := saved.value;
        depth := depth + 1;
      }
      return None;
    }

    /** The scan part of unwind_prolog: consecutive slots, the second of a pair becoming the first of the next. */
    method ScanStack(env: Env, cfa: u64, maxCfa: u64, start: nat) returns (r: Option<(u64, u64)>)
      requires start + 8 <= |env.stack|
      ensures match Scan(env, cfa, maxCfa, start, start)
        case None => r == None
        case Some(at) => r == Some((Slot(env, at), Slot(env, at + 8)))
    {
      var offset := start;
      var count := 0;
      var first := Slot(env, offset);
      offset := offset + 8;
      while offset <= |env.stack| - 8 && count < MAX_SCAN
        invariant start + 8 <= offset <= |env.stack| && offset == start + 8 + 8 * count
        invariant first == Slot(env, offset - 8)
        invariant Scan(env, cfa, maxCfa, start, start) == Scan(env, cfa, maxCfa, start, offset - 8)
        decreases MAX_SCAN - count
      {
        var second := Slot(env, offset);
        if first > cfa && first <= maxCfa {
          if Covering(env.mods, second).Some? {
            return Some((first, second));
          }
        }
        first := second;
        offset := offset + 8;
        count := count + 1;
      }
      return None;
    }

    method UnwindProlog(env: Env, result: UnwindResult) returns (ip: Option<u64>)
      requires Ready() && env.base == rsp
      modifies this`registers, result`error
      ensures Ready()
      ensures var r := PrologStep(env, old(Current()), old(result.error));
        ip == r.ip && Current() == r.cpu && result.error == r.error
    {
      var cfa := registers[REG_RSP];
      var len := |env.stack|;
      if cfa < rsp || len < 16 {
        return None;
      }
      var maxCfa := ToU64(cfa + len);
      var link := WalkChain(env, maxCfa);
      if link.Some? {
        SetFrame(ToU64(link.value.rbp + 16), link.value.saved);
        return Some(link.value.ret);
      }
      var offset := cfa - rsp;
      if offset > len - 8 {
        return None;
      }
      var pair := ScanStack(env, cfa, maxCfa, offset);
      if pair.Some? {
        SetFrame(pair.value.0, pair.value.0);
        return Some(pair.value.1);
      }
      result.error := Some(AnonPrologNotFound);
      return None;
    }

    method UnwindModule(env: Env, key: ModuleKey, rva: u64, result: UnwindResult) returns (ip: Option<u64>)
      requires Ready() && env.base == rsp && CacheOk(frameCache, env.files)
      modifies this`registers, this`frameCache, result`error
      ensures Ready() && CacheOk(frameCache, env.files)
      ensures var r := ModuleStep(env, old(Current()), key, rva, old(result.error));
        ip == r.ip && Current() == r.cpu && result.error == r.error
    {
      var rows := GetFrameOffset(env.files, env.search, key, rva);
      if rows.None? {
        result.error := Some(NoModuleFound);
        return None;
      }
      var offset := new FrameOffset(0, 0);
      offset.frameStates := rows.value;
      var offsets := new i16[REG_RA + 1](_ => 0);
      var u := offset.UnwindToCfa(offsets, rva);
      ip := ApplyCfa(env, u, offsets, Replay(NOTHING, rows.value, rva, REG_RA + 1), result);
    }

    method ApplyCfa(env: Env, u: UnwindCfa, offsets: array<i16>, ghost replayed: Unwound, result: UnwindResult)
      returns (ip: Option<u64>)
      requires Ready() && env.base == rsp
      requires Holds(Scratch(CfaState(u.reg, u.off), u.offMask, offsets[..]), replayed)
      modifies this`registers, result`error
      ensures Ready()
      ensures var r := ApplyRow(env, old(Current()), replayed, old(result.error));
        ip == r.ip && Current() == r.cpu && result.error == r.error
    {
      if u.reg > REG_RA {
        result.error := Some(RegisterOutOfRange);
        return None;
      }
      assert registers[u.reg] == Current().Register(u.reg);
      var cfa := ToU64(registers[u.reg] + u.off);
      if REG_RA !in u.offMask {
        result.error := Some(NoReturnAddressRegister);
        return None;
      }
      if registers[REG_RSP] >= cfa {
        result.error := Some(CfaWouldGoBackwards);
        return None;
      }
      var rbp := registers[REG_RBP];
      if REG_RBP in u.offMask {
        var value := StackValue(rsp, cfa, offsets[REG_RBP], env.stack);
        if value.None? {
          result.error := Some(BadStackRbpRead);
          return None;
        }
        rbp := value.value;
      }
      SetFrame(cfa, rbp);
      ip := StackValue(rsp, cfa, offsets[REG_RA], env.stack);
      if ip.None? {
        result.error := Some(BadStackIpRead);
      }
    }

    /** The body of the loop up to the push. */
    method UnwindFrame(env: Env, m: Module, result: UnwindResult) returns (ip: Option<u64>)
      requires Ready() && env.base == rsp && CacheOk(frameCache, env.files)
      requires Covering(env.mods, rip) == Some(m)
      modifies this, result`error
      ensures Ready() && rsp == old(rsp) && CacheOk(frameCache, env.files)
      ensures var r := UnwindStep(env, old(Current()), old(result.error));
        ip == r.ip && Current() == r.cpu && result.error == r.error
    {
      var savedRsp, savedRbp := registers[REG_RSP], registers[REG_RBP];
      if m.prolog {
        ip := UnwindProlog(env, result);
      } else {
        ip := UnwindModule(env, m.key, m.Rva(rip), result);
        if ip.None? && result.error == Some(NoModuleFound) {
          result.error := None;
          ip := UnwindProlog(env, result);
        }
      }
      if ip.None? {
        return;
      }
      if ip.value != 0 && Covering(env.mods, ip.value).None? {
        ip := Retry(env, ip.value, savedRsp, savedRbp, result);
      }
      rip := ip.value;
    }

    /** An address outside all modules: the stack is tried from where the step began. */
    method Retry(env: Env, found: u64, savedRsp: u64, savedRbp: u64, result: UnwindResult) returns (ip: Option<u64>)
      requires Ready() && env.base == rsp && found != 0 && !InModule(env, found)
      modifies this`registers, result`error
      ensures Ready() && ip.Some?
      ensures forall before: Cpu, how :: before.rsp == savedRsp && before.rbp == savedRbp ==>
                var r := Recover(env, before, StepResult(Some(found), old(Current()), old(result.error), how));
                ip == r.ip && Current() == r.cpu && result.error == r.error
    {
      SetFrame(savedRsp, savedRbp);
      ip := UnwindProlog(env, result);
      if ip.Some? {
        result.error := None;
      } else {
        ip := Some(found);
      }
    }

    /** unwind: pushes a frame per turn until no module covers the address, a step fails, the cap or a null address. */
    method Unwind(env: Env, frames: seq<u64>, result: UnwindResult) returns (out: seq<u64>)
      requires Ready() && env.base == rsp && CacheOk(frameCache, env.files)
      requires result.framesPushed == 1 && frames != [] && frames[|frames| - 1] == rip
      modifies this, result
      ensures CacheOk(frameCache, env.files)
      ensures var ran := RunFrom(env, old(Current()), old(result.error), [old(rip)]);
        && result.error == ran.error
        && out == frames[..|frames| - 1] + CleanUp(ran.frames, ran.failed)
        && result.framesPushed == |CleanUp(ran.frames, ran.failed)|
    {
      out := frames;
      ghost var front := frames[..|frames| - 1];
      ghost var spec := RunFrom(env, Current(), result.error, [rip]);
      ghost var pushed: seq<u64> := [rip];
      var section := Covering(env.mods, rip);
      while section.Some?
        invariant Ready() && env.base == rsp && CacheOk(frameCache, env.files)
        invariant section == Covering(env.mods, rip)
        invariant 1 <= result.framesPushed == |pushed| <= MAX_FRAMES && out == front + pushed
        invariant spec == RunFrom(env, Current(), result.error, pushed)
        decreases MAX_FRAMES - result.framesPushed
      {
        var ip := UnwindFrame(env, section.value, result);
        if ip.None? {
          return;
        }
        out := out + [rip];
        result.framesPushed := result.framesPushed + 1;
        pushed := pushed + [rip];
        if result.framesPushed > MAX_FRAMES {
          break;
        }
        if rip == 0 {
          break;
        }
        section := Covering(env.mods, rip);
      }
      assert spec == Ran(pushed, result.error, false) && out == front + pushed;
      if result.framesPushed > 1 {
        out := out[..|out| - 1];
        result.framesPushed := result.framesPushed - 1;
        assert out == front + pushed[..|pushed| - 1];
      }
    }
  }

  // --- the machine ------------------------------------------------------------------------------------------

  class Machine {
    var processes: map<u32, Process>

    constructor ()
      ensures processes == map[]
    {
      processes := map[];
    }

    ghost predicate Valid()
      reads this, processes.Values
    {
      forall pid :: pid in processes ==> processes[pid].Valid()
    }

    method AddProcess(pid: u32, process: Process) returns (added: bool)
      modifies this
      ensures added == (pid !in old(processes))
      ensures processes == if added then old(processes)[pid := process] else old(processes)
      ensures old(Valid() && process.Valid()) ==> Valid()
    {
      if pid in processes {
        return false;
      }
      processes := processes[pid := process];
      return true;
    }

    method ForkProcess(pid: u32, ppid: u32) returns (forked: bool)
      requires Valid()
      modifies this
      ensures forked == (ppid in old(processes) && pid !in old(processes))
      ensures Valid()
      ensures !forked ==> processes == old(processes)
      ensures forked ==>
        (pid in processes && processes == old(processes)[pid := processes[pid]]
         && fresh(processes[pid]) && processes[pid].mods == old(processes[ppid].mods))
    {
      if ppid !in processes {
        return false;
      }
      var child := processes[ppid].Fork();
      forked := AddProcess(pid, child);
    }

    method RemoveProcess(pid: u32) returns (removed: bool)
      modifies this
      ensures removed == (pid in old(processes)) && processes == old(processes) - {pid}
      ensures old(Valid()) ==> Valid()
    {
      removed := pid in processes;
      processes := processes - {pid};
    }

    /** unwind_process: resets the unwinder, pushes the sampled address, sorts the modules and runs. */
    method UnwindProcess(pid: u32, unwinder: Unwinder, files: map<ModuleKey, ElfFile>, search: Search, rip: u64,
                         rbp: u64, rsp: u64, stack: seq<u8>, frames: seq<u64>)
      returns (result: UnwindResult, out: seq<u64>)
      requires Valid() && CacheOk(unwinder.frameCache, files)
      modifies unwinder, processes.Values
      ensures Valid() && fresh(result) && CacheOk(unwinder.frameCache, files)
      ensures pid in processes ==>
        var env := Env(SortModules(old(processes[pid].mods)), files, search, stack, rsp);
        out == frames + FramesOf(env, rip, rbp) && result.error == RunOf(env, rip, rbp).error
      ensures pid !in processes ==> out == frames + [rip] && result.error == Some(ProcessNotMapped)
      ensures |out| == |frames| + result.framesPushed && 1 <= result.framesPushed <= MAX_FRAMES
      ensures out[..|frames|] == frames && out[|frames|] == rip
    {
      result := new UnwindResult();
      unwinder.Reset(rip, rbp, rsp);
      out := frames + [rip];
      result.framesPushed := 1;
      if pid !in processes {
        result.error := Some(ProcessNotMapped);
        return;
      }
      var process := processes[pid];
      process.Sort();
      var env := Env(process.mods, files, search, stack, rsp);
      FramesAreBounded(env, rip, rbp);
      assert out[..|out| - 1] == frames;
      out := unwinder.Unwind(env, out, result);
    }
  }

  /** Every frame of a process after the sampled address lies inside one of its modules. */
  lemma {:induction false} UnwoundFramesLieInModules(mods: seq<Module>, env: Env, rip: u64, rbp: u64, i: nat)
    requires env.mods == SortModules(mods) && 1 <= i < |FramesOf(env, rip, rbp)|
    ensures exists m :: m in mods && m.Contains(FramesOf(env, rip, rbp)[i])
  {
    FramesAreBounded(env, rip, rbp);
    var ip := FramesOf(env, rip, rbp)[i];
    CoveringContains(env.mods, ip);
    StableSortSorted(mods, StartOf);
    var m := Covering(env.mods, ip).value;
    assert m in multiset(env.mods);
    assert m in mods;
  }
}
