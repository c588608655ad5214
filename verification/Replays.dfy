/** Replaying several processes together, in the order of time. */
module Replays {
  import opened MachineInt
  import opened Outcome
  import opened Sorting
  import opened ReplayStreams

  class ExportProcessReplay {
    const process: Process
    var currentTime: u64
    var sampleIndex: nat
    var mappingIndex: nat
    var created: bool
    var exited: bool

    function Position(): ReplayStreams.Position
      reads this
    {
      ReplayStreams.Position(currentTime, sampleIndex, mappingIndex, created, exited)
    }

    constructor (process: Process)
      ensures this.process == process && Position() == Start(process)
    {
      this.process := process;
      currentTime, sampleIndex, mappingIndex, created, exited := NEVER, 0, 0, false, false;
      new;
      Advance();
    }

    method Advance()
      modifies this
      ensures Position() == ReplayStreams.Advance(process, old(Position()))
    {
      StepOver();
      SetEarliest();
      SetStates();
    }

    /** Moves past the events of the current time. */
    method StepOver()
      modifies `sampleIndex, `mappingIndex
      ensures sampleIndex == old(sampleIndex) + if old(SampleEvent()).Some? then 1 else 0
      ensures mappingIndex == old(mappingIndex) + if old(MappingEvent()).Some? then 1 else 0
    {
      if SampleEvent().Some? {
        sampleIndex := sampleIndex + 1;
      }
      if MappingEvent().Some? {
        mappingIndex := mappingIndex + 1;
      }
    }

    /** The earlier of the next sample's and the next mapping's time. */
    method SetEarliest()
      modifies `currentTime
      ensures currentTime == Earlier(process.mappings, mappingIndex, Earlier(process.samples, sampleIndex, NEVER))
    {
      currentTime := NEVER;
      if sampleIndex < |process.samples| && process.samples[sampleIndex].time < currentTime {
        currentTime := process.samples[sampleIndex].time;
      }
      if mappingIndex < |process.mappings| && process.mappings[mappingIndex].time < currentTime {
        currentTime := process.mappings[mappingIndex].time;
      }
    }

    /** Takes creation and exit into account, which are both flagged once their time is reached. */
    method SetStates()
      modifies `currentTime, `created, `exited
      ensures currentTime == EarlierOf(process.exitTime, old(exited),
                                       EarlierOf(process.createTime, old(created), old(currentTime)))
      ensures created == (old(created) || process.createTime.None? || process.createTime.value == currentTime)
      ensures exited == (old(exited) || process.exitTime.None? || process.exitTime.value == currentTime)
    {
      if !created {
        if process.createTime.Some? {
          if process.createTime.value < currentTime {
            currentTime := process.createTime.value;
          }
        } else {
          created := true;
        }
      }
      if !exited {
        if process.exitTime.Some? {
          if process.exitTime.value < currentTime {
            currentTime := process.exitTime.value;
          }
        } else {
          exited := true;
        }
      }
      if CreatedEvent() {
        created := true;
      }
      if ExitedEvent() {
        exited := true;
      }
    }

    /** What the accessors give a callback. */
    function ShowEvents(): (shown: Shown)
      reads this
      ensures shown == Show(process, Position())
    {
      Shown(currentTime, SampleEvent(), MappingEvent(), CreatedEvent(), ExitedEvent())
    }

    function SampleEvent(): Option<Event>
      reads this
    {
      EventAt(process.samples, sampleIndex, currentTime)
    }

    function MappingEvent(): Option<Event>
      reads this
    {
      EventAt(process.mappings, mappingIndex, currentTime)
    }

    predicate CreatedEvent()
      reads this
    {
      process.createTime == Some(currentTime)
    }

    predicate ExitedEvent()
      reads this
    {
      process.exitTime == Some(currentTime)
    }
  }

  // --- the merged log -------------------------------------------------------------------------------------

  /** One call of the callback: the replay it was made for and what that showed. */
  datatype Emission = Emission(replay: nat, shown: Shown)

  /** What a log says about one of the replays. */
  function Project(log: seq<Emission>, k: nat): seq<Shown> {
    if log == [] then []
    else
      var last := log[|log| - 1];
      Project(log[..|log| - 1], k) + (if last.replay == k then [last.shown] else [])
  }

  predicate TimeOrdered(log: seq<Emission>) {
    forall j, k :: 0 <= j < k < |log| ==> log[j].shown.time <= log[k].shown.time
  }

  /** The log so far and what the replays still show make up the whole streams. */
  predicate Merging(ps: seq<Process>, at: seq<ReplayStreams.Position>, log: seq<Emission>) {
    |at| == |ps| && forall k :: 0 <= k < |ps| ==> Whole(ps, at, log, k)
  }

  predicate Whole(ps: seq<Process>, at: seq<ReplayStreams.Position>, log: seq<Emission>, k: nat)
    requires k < |ps| == |at|
  {
    Settled(ps[k], at[k]) && Project(log, k) + From(ps[k], at[k]) == Stream(ps[k])
  }

  /** Nothing was shown later, and nothing is still to be shown earlier, than a time. */
  predicate Meets(ps: seq<Process>, at: seq<ReplayStreams.Position>, log: seq<Emission>, time: u64) {
    && TimeOrdered(log)
    && (forall j :: 0 <= j < |log| ==> log[j].shown.time <= time)
    && (forall k :: 0 <= k < |at| ==> time <= at[k].time)
  }

  /** How much all replays together still have to show. */
  function Left(ps: seq<Process>, at: seq<ReplayStreams.Position>): nat
    requires |at| == |ps|
  {
    if ps == [] then 0
    else Left(ps[..|ps| - 1], at[..|ps| - 1]) + LeftOf(ps[|ps| - 1], at[|ps| - 1])
  }

  function LeftOf(p: Process, s: ReplayStreams.Position): nat {
    if s.time == NEVER then 0 else 1 + Measure(p, s)
  }

  lemma {:induction false} LeftDecreases(ps: seq<Process>, at: seq<ReplayStreams.Position>, k: nat,
                                         s: ReplayStreams.Position)
    requires |at| == |ps| && k < |ps| && LeftOf(ps[k], s) < LeftOf(ps[k], at[k])
    ensures Left(ps, at[k := s]) < Left(ps, at)
  {
    var n := |ps| - 1;
    if k == n {
      assert at[k := s][..n] == at[..n];
    } else {
      LeftDecreases(ps[..n], at[..n], k, s);
      assert at[k := s][..n] == at[..n][k := s];
    }
  }

  /** Showing the next of one replay keeps the streams whole and leaves less to show. */
  lemma {:induction false} EmitKeeps(ps: seq<Process>, at: seq<ReplayStreams.Position>, log: seq<Emission>, k: nat)
    requires Merging(ps, at, log) && k < |ps| && at[k].time != NEVER
    ensures var s := ReplayStreams.Advance(ps[k], at[k]);
      Merging(ps, at[k := s], log + [Emission(k, Show(ps[k], at[k]))]) && Left(ps, at[k := s]) < Left(ps, at)
  {
    assert Whole(ps, at, log, k);
    FromStep(ps[k], at[k]);
    var s := ReplayStreams.Advance(ps[k], at[k]);
    LeftDecreases(ps, at, k, s);
    var (next, more) := (at[k := s], log + [Emission(k, Show(ps[k], at[k]))]);
    forall i | 0 <= i < |ps|
      ensures Whole(ps, next, more, i)
    {
      EmitKeepsWhole(ps, at, log, k, i);
    }
  }

  lemma {:induction false} EmitKeepsWhole(ps: seq<Process>, at: seq<ReplayStreams.Position>, log: seq<Emission>,
                                          k: nat, i: nat)
    requires k < |ps| == |at| && at[k].time != NEVER && Whole(ps, at, log, k)
    requires i < |ps| && Whole(ps, at, log, i)
    ensures Whole(ps, at[k := ReplayStreams.Advance(ps[k], at[k])], log + [Emission(k, Show(ps[k], at[k]))], i)
  {
    ProjectSnoc(log, Emission(k, Show(ps[k], at[k])), i);
    if i == k {
      FromStep(ps[k], at[k]);
      Regroup(Project(log, k), Show(ps[k], at[k]), From(ps[k], ReplayStreams.Advance(ps[k], at[k])));
    }
  }

  lemma {:induction false} Regroup(a: seq<Shown>, x: Shown, b: seq<Shown>)
    ensures a + ([x] + b) == a + [x] + b
  {
  }

  lemma {:induction false} ProjectSnoc(log: seq<Emission>, e: Emission, k: nat)
    ensures Project(log + [e], k) == Project(log, k) + if e.replay == k then [e.shown] else []
  {
  }

  lemma {:induction false} EmitMeets(ps: seq<Process>, at: seq<ReplayStreams.Position>, log: seq<Emission>, k: nat,
                                     time: u64)
    requires Meets(ps, at, log, time) && |at| == |ps| && k < |ps| && at[k].time == time
    requires Sorted(ps[k]) && Settled(ps[k], at[k])
    ensures Meets(ps, at[k := ReplayStreams.Advance(ps[k], at[k])], log + [Emission(k, Show(ps[k], at[k]))], time)
  {
  }

  /** Both at once, with the outcome of the call. */
  lemma {:induction false} EmitNext(ps: seq<Process>, at: seq<ReplayStreams.Position>, log: seq<Emission>, k: nat,
                                    time: u64, accept: seq<Emission> -> bool)
    requires Merging(ps, at, log) && Meets(ps, at, log, time) && Accepted(log, accept, Ok(()))
    requires AllSorted(ps) && k < |ps| && at[k].time == time != NEVER
    ensures var (next, more) := (at[k := ReplayStreams.Advance(ps[k], at[k])], log + [Emission(k, Show(ps[k], at[k]))]);
      && Merging(ps, next, more) && Meets(ps, next, more, time) && Left(ps, next) < Left(ps, at)
      && Accepted(more, accept, if accept(more) then Ok(()) else Err(Rejected))
  {
    assert Whole(ps, at, log, k);
    EmitKeeps(ps, at, log, k);
    EmitMeets(ps, at, log, k, time);
    var more := log + [Emission(k, Show(ps[k], at[k]))];
    assert more[..|more|] == more && forall n :: 0 <= n <= |log| ==> more[..n] == log[..n];
  }

  /** When all replays are done, each stream is in the log; before that, its start is. */
  lemma {:induction false} MergedStreams(ps: seq<Process>, at: seq<ReplayStreams.Position>, log: seq<Emission>)
    requires Merging(ps, at, log)
    ensures forall k :: 0 <= k < |ps| ==> Project(log, k) <= Stream(ps[k])
    ensures (forall k :: 0 <= k < |ps| ==> at[k].time == NEVER) ==>
              forall k :: 0 <= k < |ps| ==> Project(log, k) == Stream(ps[k])
  {
    forall k | 0 <= k < |ps|
      ensures Project(log, k) <= Stream(ps[k])
      ensures at[k].time == NEVER ==> Project(log, k) == Stream(ps[k])
    {
      assert Whole(ps, at, log, k);
    }
  }

  // --- the machine ------------------------------------------------------------------------------------------

  function SortByTime(p: Process): (r: Process)
    ensures Sorted(r) && r.pid == p.pid && r.createTime == p.createTime && r.exitTime == p.exitTime
    ensures multiset(r.samples) == multiset(p.samples) && multiset(r.mappings) == multiset(p.mappings)
  {
    StableSortSorted(p.samples, TimeOf);
    StableSortSorted(p.mappings, TimeOf);
    p.(samples := StableSort(p.samples, TimeOf), mappings := StableSort(p.mappings, TimeOf))
  }

  /** The processes a predicate selects, in order. */
  function Selected(procs: seq<Process>, select: nat -> bool): seq<Process> {
    if procs == [] then []
    else
      var last := procs[|procs| - 1];
      Selected(procs[..|procs| - 1], select) + (if select(last.pid) then [last] else [])
  }

  /** They are those at rising positions, exactly where the predicate holds of the id. */
  predicate IsSelection(procs: seq<Process>, select: nat -> bool, at: seq<nat>, chosen: seq<Process>) {
    && |at| == |chosen| && (forall i, j :: 0 <= i < j < |at| ==> at[i] < at[j])
    && (forall i :: 0 <= i < |at| ==> at[i] < |procs| && procs[at[i]] == chosen[i])
    && forall n :: 0 <= n < |procs| ==> (select(procs[n].pid) <==> n in at)
  }

  lemma {:induction false} SelectedAre(procs: seq<Process>, select: nat -> bool) returns (at: seq<nat>)
    ensures IsSelection(procs, select, at, Selected(procs, select))
  {
    at := [];
    if procs != [] {
      var before, last := procs[..|procs| - 1], procs[|procs| - 1];
      at := SelectedAre(before, select);
      assert before + [last] == procs;
      SelectionNext(before, last, select, at, Selected(before, select), |before|);
      if select(last.pid) {
        at := at + [|before|];
      }
    }
  }

  lemma {:induction false} SelectionNext(before: seq<Process>, last: Process, select: nat -> bool, at: seq<nat>,
                                         chosen: seq<Process>, n: nat)
    requires IsSelection(before, select, at, chosen) && n == |before|
    ensures select(last.pid) ==> IsSelection(before + [last], select, at + [n], chosen + [last])
    ensures !select(last.pid) ==> IsSelection(before + [last], select, at, chosen)
  {
    assert n !in at;
    assert forall m :: m in at + [n] <==> m in at || m == n;
  }

  lemma {:induction false} SelectedNext(procs: seq<Process>, n: nat, select: nat -> bool)
    requires n < |procs|
    ensures Selected(procs[..n + 1], select)
         == Selected(procs[..n], select) + if select(procs[n].pid) then [procs[n]] else []
  {
    assert procs[..n + 1][..n] == procs[..n];
  }

  class ExportMachine {
    var procs: seq<Process>

    constructor (procs: seq<Process>)
      ensures this.procs == procs
    {
      this.procs := procs;
    }

    /** Sorts the samples and mappings of the selected processes. */
    method SortSelected(select: nat -> bool)
      modifies this
      ensures |procs| == |old(procs)|
      ensures forall k :: 0 <= k < |procs| ==>
                procs[k] == if select(old(procs)[k].pid) then SortByTime(old(procs)[k]) else old(procs)[k]
    {
      for k := 0 to |procs|
        invariant |procs| == |old(procs)|
        invariant forall i :: 0 <= i < k ==>
                    procs[i] == if select(old(procs)[i].pid) then SortByTime(old(procs)[i]) else old(procs)[i]
        invariant forall i :: k <= i < |procs| ==> procs[i] == old(procs)[i]
      {
        if select(procs[k].pid) {
          procs := procs[k := SortByTime(procs[k])];
        }
      }
    }

    /** A replay for every selected process. */
    method ToReplays(select: nat -> bool) returns (replays: seq<ExportProcessReplay>)
      ensures fresh(replays) && Apart(replays)
      ensures |replays| == |Selected(procs, select)|
      ensures forall k :: 0 <= k < |replays| ==>
                replays[k].process == Selected(procs, select)[k] && replays[k].Position() == Start(replays[k].process)
    {
      replays := [];
      for n := 0 to |procs|
        invariant fresh(replays) && Apart(replays)
        invariant |replays| == |Selected(procs[..n], select)|
        invariant forall k :: 0 <= k < |replays| ==>
                    && replays[k].process == Selected(procs[..n], select)[k]
                    && replays[k].Position() == Start(replays[k].process)
      {
        SelectedNext(procs, n, select);
        if select(procs[n].pid) {
          var replay := new ExportProcessReplay(procs[n]);
          replays := replays + [replay];
        }
      }
      assert procs[..|procs|] == procs;
    }

    /**
     Calls back for every event of the selected processes, until a call fails.  `accept` is the outcome of
     the last call of a log.
     */
    method ReplayByTime(select: nat -> bool, accept: seq<Emission> -> bool)
      returns (r: Result<()>, ghost ps: seq<Process>, log: seq<Emission>)
      modifies this
      ensures |procs| == |old(procs)|
      ensures forall k :: 0 <= k < |procs| ==>
                procs[k] == if select(old(procs)[k].pid) then SortByTime(old(procs)[k]) else old(procs)[k]
      ensures ps == Selected(procs, select) && AllSorted(ps)
      ensures TimeOrdered(log)
      ensures r.Ok? ==> forall k :: 0 <= k < |ps| ==> Project(log, k) == Stream(ps[k])
      ensures r.Ok? ==> forall k :: 0 <= k < |ps| ==> InFull(ps[k], Project(log, k))
      ensures r.Err? ==> forall k :: 0 <= k < |ps| ==> Project(log, k) <= Stream(ps[k])
      ensures Accepted(log, accept, r)
    {
      SortSelected(select);
      ps := Selected(procs, select);
      SelectedSorted(procs, select);
      var replays := ToReplays(select);
      r, log := MergeReplays(replays, ps, accept);
      forall k | 0 <= k < |ps|
        ensures InFull(ps[k], Stream(ps[k]))
      {
        StreamIsInFull(ps[k]);
      }
    }
  }

  predicate AllSorted(ps: seq<Process>) {
    forall k :: 0 <= k < |ps| ==> Sorted(ps[k])
  }

  lemma {:induction false} SelectedSorted(procs: seq<Process>, select: nat -> bool)
    requires forall k :: 0 <= k < |procs| && select(procs[k].pid) ==> Sorted(procs[k])
    ensures AllSorted(Selected(procs, select))
  {
    if procs != [] {
      SelectedSorted(procs[..|procs| - 1], select);
    }
  }

  /** Every call but the last of a failed replay succeeded. */
  predicate Accepted(log: seq<Emission>, accept: seq<Emission> -> bool, r: Result<()>) {
    && (forall n :: 0 < n <= |log| ==> (accept(log[..n]) <==> !(r.Err? && n == |log|)))
    && (r.Err? ==> log != [])
  }

  ghost predicate Apart(replays: seq<ExportProcessReplay>) {
    forall j, k :: 0 <= j < k < |replays| ==> replays[j] != replays[k]
  }

  /** The replays stand at given positions. */
  ghost predicate Tied(replays: seq<ExportProcessReplay>, ps: seq<Process>, at: seq<ReplayStreams.Position>)
    reads replays
  {
    && |replays| == |ps| == |at|
    && forall k :: 0 <= k < |replays| ==> replays[k].process == ps[k] && replays[k].Position() == at[k]
  }

  lemma {:induction false} TiedTimes(replays: seq<ExportProcessReplay>, ps: seq<Process>,
                                     at: seq<ReplayStreams.Position>)
    requires Tied(replays, ps, at)
    ensures forall k :: 0 <= k < |at| ==> at[k].time == replays[k].currentTime
  {
  }

  /** The earliest time of the replays that are not done. */
  method Earliest(replays: seq<ExportProcessReplay>) returns (earliest: u64, ghost some: nat)
    ensures forall k :: 0 <= k < |replays| ==> earliest <= replays[k].currentTime
    ensures earliest != NEVER ==> some < |replays| && replays[some].currentTime == earliest
  {
    earliest, some := NEVER, 0;
    for k := 0 to |replays|
      invariant forall i :: 0 <= i < k ==> earliest <= replays[i].currentTime
      invariant earliest != NEVER ==> some < |replays| && replays[some].currentTime == earliest
    {
      if replays[k].currentTime == NEVER {
        continue;
      }
      if replays[k].currentTime < earliest {
        earliest, some := replays[k].currentTime, k;
      }
    }
  }

  /** One round: every replay that stands at the time is shown and advanced, in order. */
  method EmitAt(replays: seq<ExportProcessReplay>, ghost ps: seq<Process>, ghost before: seq<ReplayStreams.Position>,
                given: seq<Emission>, now: u64, ghost some: nat, accept: seq<Emission> -> bool)
    returns (r: Result<()>, ghost at: seq<ReplayStreams.Position>, log: seq<Emission>)
    requires Apart(replays) && Tied(replays, ps, before) && AllSorted(ps) && now != NEVER
    requires Merging(ps, before, given) && Meets(ps, before, given, now) && Accepted(given, accept, Ok(()))
    requires some < |ps| && before[some].time == now
    modifies replays
    ensures Merging(ps, at, log) && Meets(ps, at, log, now) && Accepted(log, accept, r)
    ensures r.Ok? ==> Tied(replays, ps, at) && Left(ps, at) < Left(ps, before)
  {
    at, log := before, given;
    for k := 0 to |replays|
      invariant Tied(replays, ps, at)
      invariant Merging(ps, at, log) && Meets(ps, at, log, now) && Accepted(log, accept, Ok(()))
      invariant forall i :: k <= i < |ps| ==> at[i] == before[i]
      invariant Left(ps, at) <= Left(ps, before) && (some < k ==> Left(ps, at) < Left(ps, before))
    {
      if replays[k].currentTime == NEVER {
        continue;
      }
      if replays[k].currentTime == now {
        EmitNext(ps, at, log, k, now, accept);
        log := log + [Emission(k, replays[k].ShowEvents())];
        at := at[k := ReplayStreams.Advance(ps[k], at[k])];
        if !accept(log) {
          return Err(Rejected), at, log;
        }
        replays[k].Advance();
      }
    }
    r := Ok(());
  }

  /** Finds the earliest time and makes its round, unless all replays are done. */
  method NextRound(replays: seq<ExportProcessReplay>, ghost ps: seq<Process>, ghost before: seq<ReplayStreams.Position>,
                   given: seq<Emission>, ghost last: u64, accept: seq<Emission> -> bool)
    returns (done: bool, r: Result<()>, ghost at: seq<ReplayStreams.Position>, log: seq<Emission>, ghost now: u64)
    requires Apart(replays) && Tied(replays, ps, before) && AllSorted(ps)
    requires Merging(ps, before, given) && Meets(ps, before, given, last) && Accepted(given, accept, Ok(()))
    modifies replays
    ensures Merging(ps, at, log) && Meets(ps, at, log, now) && Accepted(log, accept, r)
    ensures done ==> r.Ok? && forall k :: 0 <= k < |at| ==> at[k].time == NEVER
    ensures !done && r.Ok? ==> Tied(replays, ps, at) && Left(ps, at) < Left(ps, before)
  {
    var earliest, some := Earliest(replays);
    TiedTimes(replays, ps, before);
    if earliest == NEVER {
      return true, Ok(()), before, given, last;
    }
    MeetsLater(ps, before, given, last, earliest, some);
    r, at, log := EmitAt(replays, ps, before, given, earliest, some, accept);
    done, now := false, earliest;
  }

  /** Rounds at the earliest time of all replays, until all are done or a call fails. */
  method MergeReplays(replays: seq<ExportProcessReplay>, ghost ps: seq<Process>, accept: seq<Emission> -> bool)
    returns (r: Result<()>, log: seq<Emission>)
    requires Apart(replays) && |replays| == |ps| && AllSorted(ps)
    requires forall k :: 0 <= k < |ps| ==> replays[k].process == ps[k] && replays[k].Position() == Start(ps[k])
    modifies replays
    ensures TimeOrdered(log)
    ensures r.Ok? ==> forall k :: 0 <= k < |ps| ==> Project(log, k) == Stream(ps[k])
    ensures r.Err? ==> forall k :: 0 <= k < |ps| ==> Project(log, k) <= Stream(ps[k])
    ensures Accepted(log, accept, r)
  {
    ghost var at, now := Starts(ps), 0;
    log, r := [], Ok(());
    var done := false;
    while !done
      invariant !done ==> Tied(replays, ps, at)
      invariant done ==> forall k :: 0 <= k < |at| ==> at[k].time == NEVER
      invariant r.Ok? && Merging(ps, at, log) && Meets(ps, at, log, now) && Accepted(log, accept, r)
      decreases if done then 0 else 1, Left(ps, at)
    {
      done, r, at, log, now := NextRound(replays, ps, at, log, now, accept);
      if r.Err? {
        MergedStreams(ps, at, log);
        return;
      }
    }
    MergedStreams(ps, at, log);
  }

  /** The earliest time is one that everything shown before meets as well. */
  lemma {:induction false} MeetsLater(ps: seq<Process>, at: seq<ReplayStreams.Position>, log: seq<Emission>, now: u64,
                                      earliest: u64, some: nat)
    requires Meets(ps, at, log, now) && some < |at| && at[some].time == earliest
    requires forall k :: 0 <= k < |at| ==> earliest <= at[k].time
    ensures Meets(ps, at, log, earliest)
  {
  }

  function Starts(ps: seq<Process>): (at: seq<ReplayStreams.Position>)
    ensures |at| == |ps| && forall k :: 0 <= k < |ps| ==> at[k] == Start(ps[k])
    ensures Merging(ps, at, [])
  {
    var at := seq(|ps|, k requires 0 <= k < |ps| => Start(ps[k]));
    assert forall k :: 0 <= k < |ps| ==> Whole(ps, at, [], k);
    at
  }
}
