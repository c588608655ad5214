/** One frame of an x64 unwind: DWARF rules, frame-pointer chain, stack scan, and recovery. */
module UnwindSteps {
  import opened MachineInt
  import opened Outcome
  import opened Sorting
  import opened Processes
  import opened FrameRules
  import opened FrameOffsets

  datatype UnwindError =
    | AnonPrologNotFound
    | RegisterOutOfRange
    | NoReturnAddressRegister
    | CfaWouldGoBackwards
    | BadStackRbpRead
    | BadStackIpRead
    | NoModuleFound
    | ProcessNotMapped

  const REG_RBP: nat := 6
  const REG_RSP: nat := 7
  const REG_RA: nat := 16
  const MAX_CHAIN: nat := 16
  const MAX_SCAN: nat := 64

  datatype Cpu = Cpu(rip: u64, rsp: u64, rbp: u64) {
    /** Registers the unwinder never seeds hold zero. */
    function Register(n: nat): u64 {
      if n == REG_RBP then rbp else if n == REG_RSP then rsp else 0
    }
  }

  /** An image with its table of FDE start addresses and positions, in whatever order the file has them. */
  datatype ElfFile = ElfFile(image: seq<u8>, table: seq<(u64, nat)>)

  /** The library's partition point of addresses; it means something only when they are sorted. */
  type Search = (seq<u64>, u64) -> nat

  /** What a run reads: modules, their files, the captured stack and the address it was captured at. */
  datatype Env = Env(mods: seq<Module>, files: map<ModuleKey, ElfFile>, search: Search, stack: seq<u8>, base: u64)

  /** The captured window does not wrap around the address space. */
  predicate WindowFits(env: Env) { env.base + |env.stack| <= TWO_64 }

  datatype How = ByDwarf | ByChain | ByScan | ByNone

  datatype StepResult = StepResult(ip: Option<u64>, cpu: Cpu, error: Option<UnwindError>, how: How)

  // --- reading the stack -----------------------------------------------------------------------

  function StackValue(base: u64, cfa: u64, off: int, stack: seq<u8>): Option<u64> {
    if cfa < base then None
    else
      var offset := ToI64(ToI64(cfa - base) + off);
      if offset < 0 || offset >= |stack| - 8 then None
      else Some(Word64(stack, offset))
  }

  /** In a window that does not wrap, a value is read exactly when its eight bytes end before the window does. */
  lemma {:induction false} StackValueReads(base: u64, cfa: u64, off: int, stack: seq<u8>)
    requires base <= cfa && cfa - base < TWO_63 - 0x1_0000 && -0x8000 <= off < 0x8000
    ensures StackValue(base, cfa, off, stack).Some? <==> base <= cfa + off && cfa + off + 8 < base + |stack|
    ensures StackValue(base, cfa, off, stack).Some? ==>
      StackValue(base, cfa, off, stack) == Some(Word64(stack, cfa + off - base))
  {
    I64Self(cfa - base);
    I64Self(cfa - base + off);
  }

  // --- the frame-pointer chain -------------------------------------------------------------------

  datatype Link = Link(rbp: u64, saved: u64, ret: u64)

  /** The saved frame pointer and the return address at a frame pointer. */
  function LinkAt(env: Env, rbp: u64): Option<Link> {
    var saved, ret := StackValue(env.base, rbp, 0, env.stack), StackValue(env.base, rbp, 8, env.stack);
    if saved.Some? && ret.Some? then Some(Link(rbp, saved.value, ret.value)) else None
  }

  predicate Forward(link: Link, maxCfa: u64) {
    link.rbp < link.saved <= maxCfa && link.saved % 8 == 0
  }

  predicate InModule(env: Env, ip: u64) { Covering(env.mods, ip).Some? }

  /** The frame pointer after following d links. */
  function ChainRbp(env: Env, rbp: u64, maxCfa: u64, d: nat): Option<u64> {
    if d == 0 then Some(rbp)
    else
      match ChainRbp(env, rbp, maxCfa, d - 1)
      case None => None
      case Some(r) =>
        match LinkAt(env, r)
        case None => None
        case Some(link) =>
          if link.saved > r && link.saved <= maxCfa && link.saved % 8 == 0 then Some(link.saved) else None
  }

  /** The d-th link exists and returns into a module. */
  predicate ChainHit(env: Env, rbp: u64, maxCfa: u64, d: nat) {
    var r := ChainRbp(env, rbp, maxCfa, d);
    r.Some? && LinkAt(env, r.value).Some? && InModule(env, LinkAt(env, r.value).value.ret)
  }

  /** The first number from `from` up to a limit that satisfies a predicate, if any does. */
  ghost predicate IsFirst(isHit: nat -> bool, from: nat, limit: nat, at: Option<nat>) {
    match at
    case None => forall d: nat :: from <= d < limit ==> !isHit(d)
    case Some(n) => from <= n < limit && isHit(n) && forall d: nat :: from <= d < n ==> !isHit(d)
  }

  lemma {:induction false} IsFirstLater(isHit: nat -> bool, from: nat, next: nat, limit: nat, at: Option<nat>)
    requires next == from + 1 && IsFirst(isHit, next, limit, at) && !isHit(from)
    ensures IsFirst(isHit, from, limit, at)
  {
  }

  function ChainHits(env: Env, rbp: u64, maxCfa: u64): nat -> bool {
    (d: nat) => ChainHit(env, rbp, maxCfa, d)
  }

  /** The link a number stands for. */
  predicate IsLink(env: Env, rbp: u64, maxCfa: u64, at: Option<nat>, hit: Option<Link>) {
    match at
    case None => hit.None?
    case Some(d) => ChainHit(env, rbp, maxCfa, d) && hit == LinkAt(env, ChainRbp(env, rbp, maxCfa, d).value)
  }

  /** `hit` is the first of the links from `from` on that returns into a module, among the first sixteen. */
  ghost predicate FirstChainHit(env: Env, rbp: u64, maxCfa: u64, from: nat, hit: Option<Link>) {
    exists at :: IsFirst(ChainHits(env, rbp, maxCfa), from, MAX_CHAIN, at) && IsLink(env, rbp, maxCfa, at, hit)
  }

  /** The walk from a frame pointer, given those already followed. */
  function Chain(env: Env, rbp: u64, maxCfa: u64, followed: seq<u64>): Option<Link>
    decreases MAX_CHAIN - |followed|
  {
    if |followed| >= MAX_CHAIN then None
    else
      match LinkAt(env, rbp)
      case None => None
      case Some(link) =>
        if InModule(env, link.ret) then Some(link)
        else if !Forward(link, maxCfa) then None
        else Chain(env, link.saved, maxCfa, followed + [rbp])
  }

  /** The walk finds the first link that returns into a module. */
  lemma {:induction false} ChainIsFirstHit(env: Env, rbp: u64, maxCfa: u64)
    ensures FirstChainHit(env, rbp, maxCfa, 0, Chain(env, rbp, maxCfa, []))
  {
    ChainFinds(env, rbp, maxCfa, rbp, []);
  }

  lemma {:induction false} ChainFinds(env: Env, rbp: u64, maxCfa: u64, at: u64, followed: seq<u64>)
    requires |followed| <= MAX_CHAIN
    ensures ChainRbp(env, rbp, maxCfa, |followed|) == Some(at) ==>
              FirstChainHit(env, rbp, maxCfa, |followed|, Chain(env, at, maxCfa, followed))
    decreases MAX_CHAIN - |followed|
  {
    var d, next, hit := |followed|, |followed| + 1, Chain(env, at, maxCfa, followed);
    if d < MAX_CHAIN && ChainRbp(env, rbp, maxCfa, d) == Some(at) {
      var link := LinkAt(env, at);
      if link.Some? && InModule(env, link.value.ret) {
        ChainHitHere(env, rbp, maxCfa, d, hit);
      } else if link.Some? && Forward(link.value, maxCfa) {
        ChainFinds(env, rbp, maxCfa, link.value.saved, followed + [at]);
        LaterChainHit(env, rbp, maxCfa, d, next, hit);
      } else {
        ChainStops(env, rbp, maxCfa, d);
      }
    } else if d == MAX_CHAIN {
      NoChainHitLeft(env, rbp, maxCfa, d);
    }
  }

  lemma {:induction false} ChainHitHere(env: Env, rbp: u64, maxCfa: u64, d: nat, hit: Option<Link>)
    ensures d < MAX_CHAIN && IsLink(env, rbp, maxCfa, Some(d), hit) ==> FirstChainHit(env, rbp, maxCfa, d, hit)
  {
    if d < MAX_CHAIN && IsLink(env, rbp, maxCfa, Some(d), hit) {
      assert IsFirst(ChainHits(env, rbp, maxCfa), d, MAX_CHAIN, Some(d));
    }
  }

  lemma {:induction false} LaterChainHit(env: Env, rbp: u64, maxCfa: u64, d: nat, next: nat, hit: Option<Link>)
    requires next == d + 1
    ensures FirstChainHit(env, rbp, maxCfa, next, hit) && !ChainHit(env, rbp, maxCfa, d) ==>
              FirstChainHit(env, rbp, maxCfa, d, hit)
  {
    var isHit := ChainHits(env, rbp, maxCfa);
    if !ChainHit(env, rbp, maxCfa, d) && FirstChainHit(env, rbp, maxCfa, next, hit) {
      var at :| IsFirst(isHit, next, MAX_CHAIN, at) && IsLink(env, rbp, maxCfa, at, hit);
      IsFirstLater(isHit, d, next, MAX_CHAIN, at);
    }
  }

  lemma {:induction false} ChainStops(env: Env, rbp: u64, maxCfa: u64, d: nat)
    requires !ChainHit(env, rbp, maxCfa, d) && ChainRbp(env, rbp, maxCfa, d + 1).None?
    ensures FirstChainHit(env, rbp, maxCfa, d, None)
  {
    var e := d + 1;
    while e < MAX_CHAIN
      invariant d < e && ChainRbp(env, rbp, maxCfa, e).None?
      invariant forall x: nat :: d <= x <= e ==> !ChainHit(env, rbp, maxCfa, x)
    {
      e := e + 1;
    }
    assert IsFirst(ChainHits(env, rbp, maxCfa), d, MAX_CHAIN, None) && IsLink(env, rbp, maxCfa, None, None);
  }

  lemma {:induction false} NoChainHitLeft(env: Env, rbp: u64, maxCfa: u64, d: nat)
    requires d >= MAX_CHAIN
    ensures FirstChainHit(env, rbp, maxCfa, d, None)
  {
    assert IsFirst(ChainHits(env, rbp, maxCfa), d, MAX_CHAIN, None) && IsLink(env, rbp, maxCfa, None, None);
  }

  // --- the stack scan ------------------------------------------------------------------------------

  function Slot(env: Env, offset: nat): u64
    requires offset + 8 <= |env.stack|
  {
    Word64(env.stack, offset)
  }

  /** A stack address above the CFA followed by a code address. */
  predicate ScanHit(env: Env, cfa: u64, maxCfa: u64, offset: nat) {
    offset + 16 <= |env.stack| && cfa < Slot(env, offset) <= maxCfa && InModule(env, Slot(env, offset + 8))
  }

  /** Offset of the first hit from `offset` on, in a scan of 64 slots that began at `start`. */
  function Scan(env: Env, cfa: u64, maxCfa: u64, start: nat, offset: nat): (r: Option<nat>)
    ensures r.Some? ==> ScanHit(env, cfa, maxCfa, r.value)
    decreases |env.stack| - offset
  {
    if offset >= start + 8 * MAX_SCAN || offset + 16 > |env.stack| then None
    else if ScanHit(env, cfa, maxCfa, offset) then Some(offset)
    else Scan(env, cfa, maxCfa, start, offset + 8)
  }

  /** The k-th slot of a scan that starts at `offset`. */
  predicate SlotHit(env: Env, cfa: u64, maxCfa: u64, offset: nat, k: nat) {
    && offset + 8 * k + 16 <= |env.stack|
    && var (first, second) := (Word64(env.stack, offset + 8 * k), Word64(env.stack, offset + 8 * k + 8));
    cfa < first && first <= maxCfa && InModule(env, second)
  }

  ghost predicate FirstSlotHit(env: Env, cfa: u64, maxCfa: u64, start: nat, from: nat, hit: Option<nat>) {
    match hit
    case None => forall k: nat :: from <= k < MAX_SCAN ==> !SlotHit(env, cfa, maxCfa, start, k)
    case Some(at) =>
      exists k: nat :: from <= k < MAX_SCAN && SlotHit(env, cfa, maxCfa, start, k) && at == start + 8 * k
        && forall j: nat :: from <= j < k ==> !SlotHit(env, cfa, maxCfa, start, j)
  }

  /** The scan finds the first hit among 64 consecutive slots. */
  lemma {:induction false} ScanIsFirstHit(env: Env, cfa: u64, maxCfa: u64, start: nat, from: nat)
    requires from <= MAX_SCAN
    ensures FirstSlotHit(env, cfa, maxCfa, start, from, Scan(env, cfa, maxCfa, start, start + 8 * from))
    decreases MAX_SCAN - from
  {
    if from < MAX_SCAN {
      var hit := Scan(env, cfa, maxCfa, start, start + 8 * from);
      if SlotHit(env, cfa, maxCfa, start, from) {
        assert hit == Some(start + 8 * from);
      } else if start + 8 * from + 16 <= |env.stack| {
        ScanIsFirstHit(env, cfa, maxCfa, start, from + 1);
        assert start + 8 * from + 8 == start + 8 * (from + 1);
        LaterSlotHit(env, cfa, maxCfa, start, from, hit);
      }
    }
  }

  lemma {:induction false} LaterSlotHit(env: Env, cfa: u64, maxCfa: u64, start: nat, from: nat, hit: Option<nat>)
    requires FirstSlotHit(env, cfa, maxCfa, start, from + 1, hit) && !SlotHit(env, cfa, maxCfa, start, from)
    ensures FirstSlotHit(env, cfa, maxCfa, start, from, hit)
  {
    if hit.Some? {
      var k: nat :| from + 1 <= k < MAX_SCAN && SlotHit(env, cfa, maxCfa, start, k) && hit.value == start + 8 * k
        && forall j: nat :: from + 1 <= j < k ==> !SlotHit(env, cfa, maxCfa, start, j);
      assert forall j: nat :: from <= j < k ==> !SlotHit(env, cfa, maxCfa, start, j);
    }
  }

  // --- the two unwinders and a whole step ------------------------------------------------------------

  function PrologStep(env: Env, cpu: Cpu, error: Option<UnwindError>): StepResult {
    if cpu.rsp < env.base || |env.stack| < 16 then StepResult(None, cpu, error, ByNone)
    else
      var maxCfa := ToU64(cpu.rsp + |env.stack|);
      match Chain(env, cpu.rbp, maxCfa, [])
      case Some(link) =>
        StepResult(Some(link.ret), cpu.(rsp := ToU64(link.rbp + 16), rbp := link.saved), error, ByChain)
      case None =>
        if cpu.rsp - env.base > |env.stack| - 8 then StepResult(None, cpu, error, ByNone)
        else
          match Scan(env, cpu.rsp, maxCfa, cpu.rsp - env.base, cpu.rsp - env.base)
          case Some(at) =>
            StepResult(Some(Slot(env, at + 8)), cpu.(rsp := Slot(env, at), rbp := Slot(env, at)), error, ByScan)
          case None => StepResult(None, cpu, Some(AnonPrologNotFound), ByNone)
  }

  function Addresses(table: seq<(u64, nat)>): seq<u64> {
    seq(|table|, i requires 0 <= i < |table| => table[i].0)
  }

  /** The entry before a partition point, which is at most the number of entries. */
  function Before(n: nat, length: nat): nat
    requires length > 0
  {
    if n == 0 then 0 else if n > length then length - 1 else n - 1
  }

  /** The table entry a lookup takes for an address, if it is at or below it. */
  function EntryFor(table: seq<(u64, nat)>, search: Search, rva: u64): (r: Option<nat>)
    ensures r.Some? ==> r.value < |table| && table[r.value].0 <= rva
  {
    if table == [] then None
    else
      var i := Before(search(Addresses(table), rva), |table|);
      if table[i].0 <= rva then Some(i) else None
  }

  predicate SortedAddresses(s: seq<u64>) {
    forall i, j :: 0 <= i < j < |s| ==> s[i] <= s[j]
  }

  /** What the library promises: of sorted addresses, the number of those at or below the one asked for. */
  ghost predicate IsPartitionPoint(search: Search) {
    forall s, rva :: SortedAddresses(s) ==> Splits(s, search(s, rva), rva)
  }

  predicate Splits(s: seq<u64>, n: nat, rva: u64) {
    n <= |s| && (forall j :: 0 <= j < n ==> s[j] <= rva) && forall j :: n <= j < |s| ==> rva < s[j]
  }

  /** In a sorted table it is the last entry at or below the address, and there is none only if all are above. */
  lemma {:induction false} SortedEntryIsLast(table: seq<(u64, nat)>, search: Search, rva: u64)
    requires IsPartitionPoint(search) && SortedAddresses(Addresses(table))
    ensures match EntryFor(table, search, rva)
      case None => forall j :: 0 <= j < |table| ==> rva < table[j].0
      case Some(i) => forall j :: i < j < |table| ==> rva < table[j].0
  {
    var s := Addresses(table);
    assert Splits(s, search(s, rva), rva);
    assert forall j :: 0 <= j < |table| ==> s[j] == table[j].0;
  }

  /** The frame rules that cover an address: loaded, and not past the end the FDE declares. */
  function RowsFor(file: ElfFile, search: Search, rva: u64): Option<seq<FrameState>> {
    match EntryFor(file.table, search, rva)
    case None => None
    case Some(i) =>
      match LoadAt(file.image, file.table[i].1)
      case Err(_) => None
      case Ok(loaded) => if Outside(file.table[i].0, loaded.pcSize, rva) then None else Some(loaded.rows)
  }

  predicate Outside(start: u64, pcSize: u64, rva: u64) {
    pcSize != 0 && rva >= ToU64(start + pcSize)
  }

  function FrameRows(env: Env, key: ModuleKey, rva: u64): Option<seq<FrameState>> {
    if key in env.files then RowsFor(env.files[key], env.search, rva) else None
  }

  /** Virtual unwinding by a replayed row: the CFA becomes RSP, saved registers are read below it. */
  function ApplyRow(env: Env, cpu: Cpu, u: Unwound, error: Option<UnwindError>): StepResult {
    if u.cfa.reg > REG_RA then StepResult(None, cpu, Some(RegisterOutOfRange), ByNone)
    else
      var cfa := ToU64(cpu.Register(u.cfa.reg) + u.cfa.off);
      if REG_RA !in u.offsets then StepResult(None, cpu, Some(NoReturnAddressRegister), ByNone)
      else if cpu.rsp >= cfa then StepResult(None, cpu, Some(CfaWouldGoBackwards), ByNone)
      else
        var rbp :=
          if REG_RBP in u.offsets then StackValue(env.base, cfa, u.offsets[REG_RBP], env.stack) else Some(cpu.rbp);
        if rbp.None? then StepResult(None, cpu, Some(BadStackRbpRead), ByNone)
        else
          var next := cpu.(rsp := cfa, rbp := rbp.value);
          match StackValue(env.base, cfa, u.offsets[REG_RA], env.stack)
          case None => StepResult(None, next, Some(BadStackIpRead), ByNone)
          case Some(ip) => StepResult(Some(ip), next, error, ByDwarf)
  }

  function ModuleStep(env: Env, cpu: Cpu, key: ModuleKey, rva: u64, error: Option<UnwindError>): StepResult {
    match FrameRows(env, key, rva)
    case None => StepResult(None, cpu, Some(NoModuleFound), ByNone)
    case Some(rows) => ApplyRow(env, cpu, Replay(NOTHING, rows, rva, REG_RA + 1), error)
  }

  /** The unwinder the module asks for; a DWARF module without rules for the address falls back to the stack. */
  function FrameStep(env: Env, cpu: Cpu, m: Module, error: Option<UnwindError>): StepResult {
    if m.prolog then PrologStep(env, cpu, error)
    else
      var r := ModuleStep(env, cpu, m.key, m.Rva(cpu.rip), error);
      if r.ip.None? && r.error == Some(NoModuleFound) then PrologStep(env, r.cpu, None) else r
  }

  /** An address in no module is retried from the stack as it was before the step. */
  function Recover(env: Env, before: Cpu, r: StepResult): StepResult {
    if r.ip.None? || r.ip.value == 0 || InModule(env, r.ip.value) then r
    else
      var again := PrologStep(env, r.cpu.(rsp := before.rsp, rbp := before.rbp), r.error);
      if again.ip.Some? then again.(error := None) else again.(ip := r.ip)
  }

  /** One turn of the unwind loop. */
  function UnwindStep(env: Env, cpu: Cpu, error: Option<UnwindError>): StepResult
    requires InModule(env, cpu.rip)
  {
    var r := Recover(env, cpu, FrameStep(env, cpu, Covering(env.mods, cpu.rip).value, error));
    if r.ip.Some? then r.(cpu := r.cpu.(rip := r.ip.value)) else r
  }

  // --- what a step does to the stack pointer -----------------------------------------------------------

  lemma {:induction false} LinkInsideWindow(env: Env, rbp: u64)
    requires WindowFits(env) && LinkAt(env, rbp).Some?
    ensures env.base <= rbp && rbp + 16 < env.base + |env.stack|
  {
    var n: u64 := rbp - env.base;
    SignedPattern(n);
    I64Self(ToI64(n));
    assert n < TWO_63;
    SignedPattern(n + 8);
  }

  lemma {:induction false} ChainFindsLink(env: Env, rbp: u64, maxCfa: u64, followed: seq<u64>)
    ensures var r := Chain(env, rbp, maxCfa, followed);
      r.Some? ==> LinkAt(env, r.value.rbp) == r && InModule(env, r.value.ret)
    decreases MAX_CHAIN - |followed|
  {
    if |followed| < MAX_CHAIN && LinkAt(env, rbp).Some? {
      ChainFindsLink(env, LinkAt(env, rbp).value.saved, maxCfa, followed + [rbp]);
    }
  }

  /** Where a step leaves RSP, by the way it found the caller. */
  ghost predicate MovesRsp(env: Env, before: u64, r: StepResult) {
    match r.how
    case ByDwarf | ByScan => before < r.cpu.rsp
    case ByChain => env.base + 16 <= r.cpu.rsp < env.base + |env.stack|
    case ByNone => before <= r.cpu.rsp
  }

  lemma {:induction false} PrologMovesRsp(env: Env, cpu: Cpu, error: Option<UnwindError>)
    requires WindowFits(env)
    ensures var r := PrologStep(env, cpu, error);
      MovesRsp(env, cpu.rsp, r) && r.cpu.rip == cpu.rip && (r.ip.Some? ==> InModule(env, r.ip.value))
      && (r.ip.None? ==> r.cpu == cpu && r.how == ByNone)
  {
    var maxCfa := ToU64(cpu.rsp + |env.stack|);
    ChainFindsLink(env, cpu.rbp, maxCfa, []);
    var hit := Chain(env, cpu.rbp, maxCfa, []);
    if hit.Some? {
      LinkInsideWindow(env, hit.value.rbp);
      SmallMod(hit.value.rbp + 16);
    }
  }

  lemma {:induction false} ApplyRowMovesRsp(env: Env, cpu: Cpu, u: Unwound, error: Option<UnwindError>)
    ensures var r := ApplyRow(env, cpu, u, error);
      cpu.rsp <= r.cpu.rsp && r.cpu.rip == cpu.rip
      && (r.ip.Some? ==> cpu.rsp < r.cpu.rsp && r.how == ByDwarf) && (r.ip.None? ==> r.how == ByNone)
      && (r.error == Some(NoModuleFound) ==> error == Some(NoModuleFound))
  {
  }

  lemma {:induction false} FrameStepMovesRsp(env: Env, cpu: Cpu, m: Module, error: Option<UnwindError>)
    requires WindowFits(env) && error != Some(NoModuleFound)
    ensures MovesRsp(env, cpu.rsp, FrameStep(env, cpu, m, error))
  {
    PrologMovesRsp(env, cpu, error);
    PrologMovesRsp(env, cpu, None);
    var rows := FrameRows(env, m.key, m.Rva(cpu.rip));
    if rows.Some? {
      ApplyRowMovesRsp(env, cpu, Replay(NOTHING, rows.value, m.Rva(cpu.rip), REG_RA + 1), error);
    }
  }

  /** Every step, however it found the caller, keeps RSP at or above the start of the captured stack. */
  lemma {:induction false} StepMovesRsp(env: Env, cpu: Cpu, error: Option<UnwindError>)
    requires WindowFits(env) && InModule(env, cpu.rip) && env.base <= cpu.rsp && error != Some(NoModuleFound)
    ensures MovesRsp(env, cpu.rsp, UnwindStep(env, cpu, error))
    ensures env.base <= UnwindStep(env, cpu, error).cpu.rsp
  {
    var m := Covering(env.mods, cpu.rip).value;
    FrameStepMovesRsp(env, cpu, m, error);
    var r := FrameStep(env, cpu, m, error);
    PrologMovesRsp(env, r.cpu.(rsp := cpu.rsp, rbp := cpu.rbp), r.error);
  }
}
