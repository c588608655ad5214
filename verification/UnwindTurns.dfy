/** What one turn of the unwind loop does, and where a run stops, told without following the loop. */
module UnwindTurns {
  import opened MachineInt
  import opened Outcome
  import opened Processes
  import opened CallFrame
  import opened FrameRules
  import opened FrameOffsets
  import opened UnwindSteps
  import opened UnwindRuns

  // --- a step from the stack --------------------------------------------------------------------

  lemma {:induction false} SameFirst(isHit: nat -> bool, from: nat, limit: nat, a: Option<nat>, b: Option<nat>)
    requires IsFirst(isHit, from, limit, a) && IsFirst(isHit, from, limit, b)
    ensures a == b
  {
  }

  lemma {:induction false} SameChainHit(env: Env, rbp: u64, maxCfa: u64, hit: Option<Link>, other: Option<Link>)
    requires FirstChainHit(env, rbp, maxCfa, 0, hit) && FirstChainHit(env, rbp, maxCfa, 0, other)
    ensures hit == other
  {
    var hits := ChainHits(env, rbp, maxCfa);
    var a :| IsFirst(hits, 0, MAX_CHAIN, a) && IsLink(env, rbp, maxCfa, a, hit);
    var b :| IsFirst(hits, 0, MAX_CHAIN, b) && IsLink(env, rbp, maxCfa, b, other);
    SameFirst(hits, 0, MAX_CHAIN, a, b);
  }

  lemma {:induction false} SameSlotHit(env: Env, cfa: u64, maxCfa: u64, start: nat, hit: Option<nat>,
                                       other: Option<nat>)
    requires FirstSlotHit(env, cfa, maxCfa, start, 0, hit) && FirstSlotHit(env, cfa, maxCfa, start, 0, other)
    ensures hit == other
  {
    if hit.Some? && other.Some? {
      var j: nat :| j < MAX_SCAN && SlotHit(env, cfa, maxCfa, start, j) && hit.value == start + 8 * j
        && forall i: nat :: 0 <= i < j ==> !SlotHit(env, cfa, maxCfa, start, i);
      var k: nat :| k < MAX_SCAN && SlotHit(env, cfa, maxCfa, start, k) && other.value == start + 8 * k
        && forall i: nat :: 0 <= i < k ==> !SlotHit(env, cfa, maxCfa, start, i);
      assert !(j < k) && !(k < j);
    }
  }

  /** The word at an address of the captured stack. */
  function StackWord(env: Env, at: u64, off: int): Option<u64> { StackValue(env.base, at, off, env.stack) }

  /** There is too little stack above RSP to look at. */
  predicate TooShort(env: Env, cpu: Cpu) { cpu.rsp < env.base || |env.stack| < 16 }

  /** The highest address a saved frame pointer may have. */
  function Limit(env: Env, cpu: Cpu): u64 { ToU64(cpu.rsp + |env.stack|) }

  /**
   The caller of the first link that returns into a module: its address is the word above the frame pointer, RSP is
   above both words, and RBP is the word that was saved.
   */
  predicate ByLink(env: Env, cpu: Cpu, error: Option<UnwindError>, link: Link, r: StepResult) {
    && r.how == ByChain && r.error == error && r.cpu.rip == cpu.rip
    && r.ip.Some? && r.ip == StackWord(env, link.rbp, 8)
    && r.cpu.rsp == ToU64(link.rbp + 16) && Some(r.cpu.rbp) == StackWord(env, link.rbp, 0)
  }

  /** The caller of the first pair of slots that looks like a frame: RSP and RBP are the stack address of the pair. */
  predicate BySlot(env: Env, cpu: Cpu, error: Option<UnwindError>, at: nat, r: StepResult) {
    && r.how == ByScan && r.error == error && r.cpu.rip == cpu.rip && at + 16 <= |env.stack|
    && r.cpu.rsp == r.cpu.rbp == Word64(env.stack, at) && r.ip == Some(Word64(env.stack, at + 8))
  }

  /** Nothing found: registers stay, and the error is set if there was a slot to look at. */
  predicate Nothing(env: Env, cpu: Cpu, error: Option<UnwindError>, r: StepResult) {
    && r.how == ByNone && r.ip == None && r.cpu == cpu
    && r.error == if !TooShort(env, cpu) && cpu.rsp - env.base + 8 <= |env.stack| then Some(AnonPrologNotFound)
                  else error
  }

  lemma {:induction false} NoSlotLeft(env: Env, cpu: Cpu, start: nat, at: Option<nat>)
    requires start + 8 > |env.stack| && FirstSlotHit(env, cpu.rsp, Limit(env, cpu), start, 0, at)
    ensures at == None
  {
  }

  lemma {:induction false} ChainIsHit(env: Env, cpu: Cpu, hit: Option<Link>)
    requires FirstChainHit(env, cpu.rbp, Limit(env, cpu), 0, hit)
    ensures Chain(env, cpu.rbp, Limit(env, cpu), []) == hit
    ensures hit.Some? ==> LinkAt(env, hit.value.rbp) == hit
  {
    var found := Chain(env, cpu.rbp, Limit(env, cpu), []);
    ChainIsFirstHit(env, cpu.rbp, Limit(env, cpu));
    SameChainHit(env, cpu.rbp, Limit(env, cpu), hit, found);
    ChainFindsLink(env, cpu.rbp, Limit(env, cpu), []);
  }

  lemma {:induction false} ScanIsHit(env: Env, cpu: Cpu, start: nat, at: Option<nat>)
    requires FirstSlotHit(env, cpu.rsp, Limit(env, cpu), start, 0, at)
    ensures Scan(env, cpu.rsp, Limit(env, cpu), start, start) == at
    ensures start + 8 > |env.stack| ==> at == None
    ensures at.Some? ==> at.value + 16 <= |env.stack|
  {
    ScanIsFirstHit(env, cpu.rsp, Limit(env, cpu), start, 0);
    SameSlotHit(env, cpu.rsp, Limit(env, cpu), start, at, Scan(env, cpu.rsp, Limit(env, cpu), start, start));
    if start + 8 > |env.stack| {
      NoSlotLeft(env, cpu, start, at);
    }
  }

  lemma {:induction false} LinkWords(env: Env, link: Link)
    requires LinkAt(env, link.rbp) == Some(link)
    ensures StackWord(env, link.rbp, 0) == Some(link.saved) && StackWord(env, link.rbp, 8) == Some(link.ret)
  {
  }

  lemma {:induction false} LinkGives(env: Env, cpu: Cpu, error: Option<UnwindError>, link: Link)
    requires !TooShort(env, cpu) && Chain(env, cpu.rbp, Limit(env, cpu), []) == Some(link)
    requires LinkAt(env, link.rbp) == Some(link)
    ensures ByLink(env, cpu, error, link, PrologStep(env, cpu, error))
  {
    LinkWords(env, link);
  }

  lemma {:induction false} SlotGives(env: Env, cpu: Cpu, error: Option<UnwindError>, start: nat, at: nat)
    requires !TooShort(env, cpu) && start == cpu.rsp - env.base && Chain(env, cpu.rbp, Limit(env, cpu), []).None?
    requires Scan(env, cpu.rsp, Limit(env, cpu), start, start) == Some(at) && start + 8 <= |env.stack|
    requires at + 16 <= |env.stack|
    ensures BySlot(env, cpu, error, at, PrologStep(env, cpu, error))
  {
  }

  lemma {:induction false} NothingGives(env: Env, cpu: Cpu, error: Option<UnwindError>, start: nat)
    requires !TooShort(env, cpu) && start == cpu.rsp - env.base && Chain(env, cpu.rbp, Limit(env, cpu), []).None?
    requires Scan(env, cpu.rsp, Limit(env, cpu), start, start).None?
    ensures Nothing(env, cpu, error, PrologStep(env, cpu, error))
  {
  }

  /** The first link decides, then the first pair of slots. */
  lemma {:induction false} PrologStepIs(env: Env, cpu: Cpu, error: Option<UnwindError>, hit: Option<Link>,
                                        at: Option<nat>)
    requires FirstChainHit(env, cpu.rbp, Limit(env, cpu), 0, hit)
    requires cpu.rsp >= env.base ==> FirstSlotHit(env, cpu.rsp, Limit(env, cpu), cpu.rsp - env.base, 0, at)
    ensures var r := PrologStep(env, cpu, error);
      if TooShort(env, cpu) then Nothing(env, cpu, error, r)
      else if hit.Some? then ByLink(env, cpu, error, hit.value, r)
      else if at.Some? then BySlot(env, cpu, error, at.value, r)
      else Nothing(env, cpu, error, r)
  {
    if !TooShort(env, cpu) {
      ChainIsHit(env, cpu, hit);
      if hit.Some? {
        LinkGives(env, cpu, error, hit.value);
      } else {
        ScanIsHit(env, cpu, cpu.rsp - env.base, at);
        if at.Some? {
          SlotGives(env, cpu, error, cpu.rsp - env.base, at.value);
        } else {
          NothingGives(env, cpu, error, cpu.rsp - env.base);
        }
      }
    }
  }

  /** How a step from the stack found its caller tells what there was to find. */
  lemma {:induction false} PrologStepByIff(env: Env, cpu: Cpu, error: Option<UnwindError>, hit: Option<Link>,
                                           at: Option<nat>)
    requires FirstChainHit(env, cpu.rbp, Limit(env, cpu), 0, hit)
    requires cpu.rsp >= env.base ==> FirstSlotHit(env, cpu.rsp, Limit(env, cpu), cpu.rsp - env.base, 0, at)
    ensures var r := PrologStep(env, cpu, error);
      && (r.how == ByChain <==> !TooShort(env, cpu) && hit.Some?)
      && (r.how == ByScan <==> !TooShort(env, cpu) && hit.None? && at.Some?)
      && (r.how == ByNone <==> TooShort(env, cpu) || (hit.None? && at.None?))
      && (r.how == ByNone <==> r.ip.None?)
  {
    PrologStepIs(env, cpu, error, hit, at);
  }

  // --- a whole turn -------------------------------------------------------------------------------

  /** The module is unwound from the stack: because it asks for that, or because no frame rules cover the address. */
  predicate FromStack(env: Env, m: Module, ip: u64) {
    m.prolog || FrameRows(env, m.key, m.Rva(ip)).None?
  }

  /** What the frame rules of an address give. */
  function FromRules(env: Env, cpu: Cpu, m: Module, error: Option<UnwindError>): StepResult
    requires !FromStack(env, m, cpu.rip)
  {
    ApplyRow(env, cpu, Replay(NOTHING, FrameRows(env, m.key, m.Rva(cpu.rip)).value, m.Rva(cpu.rip), REG_RA + 1), error)
  }

  /** An address to go on with: the end of the stack, or one in a module. */
  predicate Usable(env: Env, ip: Option<u64>) { ip.Some? && (ip.value == 0 || InModule(env, ip.value)) }

  predicate Lands(r: StepResult, ip: Option<u64>, rsp: u64, rbp: u64) {
    r.ip == ip && r.cpu.rsp == rsp && r.cpu.rbp == rbp && (ip.Some? ==> r.cpu.rip == ip.value)
  }

  /**
   One turn: from the stack where there are no rules; else by the rules if they give an address to go on with or
   none at all.  An address outside all modules is looked for again from the stack as it was before the turn, and
   kept if nothing is found there.
   */
  lemma {:induction false} TurnIs(env: Env, cpu: Cpu, error: Option<UnwindError>)
    requires InModule(env, cpu.rip)
    ensures var (m, r) := (Covering(env.mods, cpu.rip).value, UnwindStep(env, cpu, error));
      if FromStack(env, m, cpu.rip) then
        var s := PrologStep(env, cpu, if m.prolog then error else None);
        Lands(r, s.ip, s.cpu.rsp, s.cpu.rbp) && r.error == s.error && r.how == s.how
      else
        var s := FromRules(env, cpu, m, error);
        if s.ip.None? || Usable(env, s.ip) then
          Lands(r, s.ip, s.cpu.rsp, s.cpu.rbp) && r.error == s.error && r.how == s.how
        else
          var again := PrologStep(env, cpu, s.error);
          if again.ip.Some? then Lands(r, again.ip, again.cpu.rsp, again.cpu.rbp) && r.error == None
          else Lands(r, s.ip, cpu.rsp, cpu.rbp) && r.error == again.error && r.how == ByNone
  {
    var m := Covering(env.mods, cpu.rip).value;
    if FromStack(env, m, cpu.rip) {
      PrologLands(env, cpu, if m.prolog then error else None);
    } else {
      RulesLand(env, cpu, m, error);
    }
  }

  lemma {:induction false} PrologLands(env: Env, cpu: Cpu, error: Option<UnwindError>)
    ensures var r := PrologStep(env, cpu, error); r.ip.Some? ==> InModule(env, r.ip.value)
    ensures PrologStep(env, cpu, error).cpu.rip == cpu.rip
  {
    ChainFindsLink(env, cpu.rbp, ToU64(cpu.rsp + |env.stack|), []);
  }

  lemma {:induction false} RulesLand(env: Env, cpu: Cpu, m: Module, error: Option<UnwindError>)
    requires InModule(env, cpu.rip) && !FromStack(env, m, cpu.rip)
    ensures FrameStep(env, cpu, m, error) == FromRules(env, cpu, m, error)
    ensures FromRules(env, cpu, m, error).cpu.rip == cpu.rip
  {
    RowGives(env, cpu, Replay(NOTHING, FrameRows(env, m.key, m.Rva(cpu.rip)).value, m.Rva(cpu.rip), REG_RA + 1), error);
  }

  lemma {:induction false} RowGives(env: Env, cpu: Cpu, u: Unwound, error: Option<UnwindError>)
    ensures var s := ApplyRow(env, cpu, u, error);
      s.cpu.rip == cpu.rip && (s.ip.None? ==> s.error.Some? && s.error != Some(NoModuleFound))
  {
  }

  // --- a whole run ----------------------------------------------------------------------------------

  /** What a turn does in a machine state; none outside all modules. */
  type Turn = (Cpu, Option<UnwindError>) -> Option<StepResult>

  function TurnOf(env: Env): Turn {
    (cpu: Cpu, error: Option<UnwindError>) =>
      if InModule(env, cpu.rip) then Some(UnwindStep(env, cpu, error)) else None
  }

  datatype Point = Point(cpu: Cpu, error: Option<UnwindError>)

  /** What the k-th turn gives, if it is made. */
  function Made(turn: Turn, start: Point, k: nat): Option<StepResult> {
    match PointAt(turn, start, k)
    case None => None
    case Some(p) => turn(p.cpu, p.error)
  }

  /** Where k turns lead, if each gives an address to go on with. */
  function PointAt(turn: Turn, start: Point, k: nat): Option<Point> {
    if k == 0 then Some(start)
    else
      match PointAt(turn, start, k - 1)
      case None => None
      case Some(p) =>
        var r := turn(p.cpu, p.error);
        if r.Some? && r.value.ip.Some? && r.value.ip.value != 0 then Some(Point(r.value.cpu, r.value.error)) else None
  }

  /** It is the state at the head of the turn. */
  lemma {:induction false} StateIsPoint(env: Env, start: Point, k: nat)
    ensures match StateAt(env, start.cpu, start.error, k)
      case None => PointAt(TurnOf(env), start, k) == None
      case Some((cpu, error)) => PointAt(TurnOf(env), start, k) == Some(Point(cpu, error))
  {
    if k > 0 {
      StateIsPoint(env, start, k - 1);
    }
  }

  /** The address a run pushes k-th: the one it starts at, then what each turn gives. */
  function AddressAt(turn: Turn, start: Point, k: nat): Option<u64> {
    if k == 0 then Some(start.cpu.rip)
    else if Made(turn, start, k - 1).Some? then Made(turn, start, k - 1).value.ip
    else None
  }

  /** The error after k turns: as it was before the first, or as the turn before left it. */
  function ErrorAfter(turn: Turn, start: Point, k: nat): Option<UnwindError> {
    if k == 0 then start.error
    else if Made(turn, start, k - 1).Some? then Made(turn, start, k - 1).value.error
    else None
  }

  /** The k-th turn is made and finds no caller. */
  predicate FailsAt(turn: Turn, start: Point, k: nat) {
    k < 128 && Made(turn, start, k).Some? && Made(turn, start, k).value.ip.None?
  }

  /** After k turns there is enough: too many frames, the end of the stack, or an address outside all modules. */
  predicate EndsAt(turn: Turn, start: Point, k: nat) {
    || k >= 128
    || (k > 0 && AddressAt(turn, start, k) == Some(0))
    || (PointAt(turn, start, k).Some? && Made(turn, start, k).None?)
  }

  /** The error of a run that stops at k: that of the turn that fails there counts as well. */
  function ErrorAt(turn: Turn, start: Point, k: nat): Option<UnwindError> {
    ErrorAfter(turn, start, if FailsAt(turn, start, k) then k + 1 else k)
  }

  predicate Stops(turn: Turn, start: Point, k: nat) { FailsAt(turn, start, k) || EndsAt(turn, start, k) }

  /** No turn before the n-th is one to stop at. */
  ghost predicate Running(turn: Turn, start: Point, n: nat) { forall k: nat :: k < n ==> !Stops(turn, start, k) }

  /** The first turn a run stops at. */
  ghost predicate StopsFirst(turn: Turn, start: Point, n: nat) { Stops(turn, start, n) && Running(turn, start, n) }

  /** The frames so far are the addresses so far. */
  predicate Pushed(turn: Turn, start: Point, frames: seq<u64>) {
    forall k: nat :: k < |frames| ==> AddressAt(turn, start, k) == Some(frames[k])
  }

  predicate Ends(turn: Turn, start: Point, stop: nat, ran: Ran) {
    && |ran.frames| == stop + 1 && Pushed(turn, start, ran.frames)
    && (ran.failed <==> FailsAt(turn, start, stop)) && ran.error == ErrorAt(turn, start, stop)
  }

  /** The run from a point on, by what its turns do. */
  function RunBy(turn: Turn, p: Point, pushed: seq<u64>): Ran
    requires |pushed| <= MAX_FRAMES
    decreases MAX_FRAMES - |pushed|
  {
    match turn(p.cpu, p.error)
    case None => Ran(pushed, p.error, false)
    case Some(r) =>
      if r.ip.None? then Ran(pushed, r.error, true)
      else
        var more := pushed + [r.ip.value];
        if |more| > MAX_FRAMES || r.ip.value == 0 then Ran(more, r.error, false)
        else RunBy(turn, Point(r.cpu, r.error), more)
  }

  lemma {:induction false} RunByTurns(env: Env, cpu: Cpu, error: Option<UnwindError>, pushed: seq<u64>)
    requires |pushed| <= MAX_FRAMES
    ensures RunFrom(env, cpu, error, pushed) == RunBy(TurnOf(env), Point(cpu, error), pushed)
    decreases MAX_FRAMES - |pushed|
  {
    if InModule(env, cpu.rip) {
      var r := UnwindStep(env, cpu, error);
      if r.ip.Some? && |pushed| < MAX_FRAMES && r.ip.value != 0 {
        RunByTurns(env, r.cpu, r.error, pushed + [r.ip.value]);
      }
    }
  }

  lemma {:induction false} RunsOn(turn: Turn, start: Point, p: Point, pushed: seq<u64>, n: nat) returns (stop: nat)
    requires |pushed| == n + 1 <= MAX_FRAMES && Pushed(turn, start, pushed) && Running(turn, start, n)
    requires PointAt(turn, start, n) == Some(p) && ErrorAfter(turn, start, n) == p.error
    requires n > 0 ==> AddressAt(turn, start, n) != Some(0)
    ensures StopsFirst(turn, start, stop) && Ends(turn, start, stop, RunBy(turn, p, pushed))
    decreases MAX_FRAMES - n
  {
    stop := n;
    var r := turn(p.cpu, p.error);
    assert Made(turn, start, n) == r;
    if r.Some? && r.value.ip.Some? {
      stop := n + 1;
      var more := pushed + [r.value.ip.value];
      assert AddressAt(turn, start, stop) == r.value.ip && ErrorAfter(turn, start, stop) == r.value.error;
      assert !Stops(turn, start, n);
      if stop < MAX_FRAMES && r.value.ip.value != 0 {
        stop := RunsOn(turn, start, Point(r.value.cpu, r.value.error), more, stop);
      } else {
        EnoughStops(turn, start, stop);
      }
    }
  }

  lemma {:induction false} EnoughStops(turn: Turn, start: Point, n: nat)
    requires n >= 128 || (n > 0 && AddressAt(turn, start, n) == Some(0))
    ensures Stops(turn, start, n) && !FailsAt(turn, start, n)
  {
  }

  /**
   The frames a sample gets, and the error: the addresses up to the turn the run stops at.  The last is left out when
   the run ended, unless it is the sampled address itself, and kept when a turn failed.
   */
  lemma {:induction false} FramesAreAddresses(env: Env, rip: u64, rbp: u64) returns (n: nat)
    ensures var (turn, start, frames) := (TurnOf(env), Point(Cpu(rip, env.base, rbp), None), FramesOf(env, rip, rbp));
      && StopsFirst(turn, start, n) && n <= 128
      && |frames| == (if FailsAt(turn, start, n) || n == 0 then n + 1 else n)
      && Pushed(turn, start, frames) && RunOf(env, rip, rbp).error == ErrorAt(turn, start, n)
  {
    var start := Point(Cpu(rip, env.base, rbp), None);
    n := RunsOn(TurnOf(env), start, start, [rip], 0);
    RunByTurns(env, start.cpu, None, [rip]);
    RunShape(env, start.cpu, None, [rip]);
  }
}
