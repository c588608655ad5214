/** What the replay of a single process shows, from its first event to its last. */
module ReplayStreams {
  import opened MachineInt
  import opened Outcome
  import opened Sorting

  datatype Event = Event(time: u64, payload: nat)

  datatype Process = Process(pid: nat, samples: seq<Event>, mappings: seq<Event>,
                             createTime: Option<u64>, exitTime: Option<u64>)

  /** Where a replay stands; the flags tell that creation and exit need no more attention. */
  datatype Position = Position(time: u64, sampleIndex: nat, mappingIndex: nat, created: bool, exited: bool)

  /** What a callback can see of a replay. */
  datatype Shown = Shown(time: u64, sample: Option<Event>, mapping: Option<Event>, created: bool, exited: bool)

  /** The time of a replay that is done. */
  const NEVER: u64 := TWO_64 - 1

  function TimeOf(e: Event): int { e.time }

  predicate Sorted(p: Process) {
    SortedBy(p.samples, TimeOf) && SortedBy(p.mappings, TimeOf)
  }

  /** The event a replay stands at, if it happens at the time. */
  function EventAt(events: seq<Event>, index: nat, time: u64): Option<Event> {
    if index < |events| && events[index].time == time then Some(events[index]) else None
  }

  function Earlier(events: seq<Event>, index: nat, time: u64): u64 {
    if index < |events| && events[index].time < time then events[index].time else time
  }

  function EarlierOf(at: Option<u64>, seen: bool, time: u64): u64 {
    if !seen && at.Some? && at.value < time then at.value else time
  }

  /** One step: past the events shown, on to the earliest that was not. */
  function Advance(p: Process, s: Position): Position {
    var i := s.sampleIndex + if EventAt(p.samples, s.sampleIndex, s.time).Some? then 1 else 0;
    var j := s.mappingIndex + if EventAt(p.mappings, s.mappingIndex, s.time).Some? then 1 else 0;
    var events := Earlier(p.mappings, j, Earlier(p.samples, i, NEVER));
    var time := EarlierOf(p.exitTime, s.exited, EarlierOf(p.createTime, s.created, events));
    Position(time, i, j,
             s.created || p.createTime.None? || p.createTime.value == time,
             s.exited || p.exitTime.None? || p.exitTime.value == time)
  }

  /** A new replay has advanced once already. */
  function Start(p: Process): Position {
    Advance(p, Position(NEVER, 0, 0, false, false))
  }

  function Show(p: Process, s: Position): Shown {
    Shown(s.time, EventAt(p.samples, s.sampleIndex, s.time), EventAt(p.mappings, s.mappingIndex, s.time),
          p.createTime == Some(s.time), p.exitTime == Some(s.time))
  }

  /** Nothing at or after the position is earlier than its time, and something happens at that time. */
  predicate Settled(p: Process, s: Position) {
    && (s.sampleIndex < |p.samples| ==> s.time <= p.samples[s.sampleIndex].time)
    && (s.mappingIndex < |p.mappings| ==> s.time <= p.mappings[s.mappingIndex].time)
    && (!s.created ==> p.createTime.Some? && s.time < p.createTime.value)
    && (!s.exited ==> p.exitTime.Some? && s.time < p.exitTime.value)
    && (s.time != NEVER ==> Happens(p, s))
  }

  predicate Happens(p: Process, s: Position) {
    Show(p, s).sample.Some? || Show(p, s).mapping.Some? || Show(p, s).created || Show(p, s).exited
  }

  lemma {:induction false} AdvanceSettles(p: Process, s: Position)
    ensures Settled(p, Advance(p, s))
  {
  }

  /** Events not shown yet, and whether the position shows none of them. */
  function Measure(p: Process, s: Position): nat {
    2 * (if s.sampleIndex < |p.samples| then |p.samples| - s.sampleIndex else 0)
    + 2 * (if s.mappingIndex < |p.mappings| then |p.mappings| - s.mappingIndex else 0)
    + (if s.created then 0 else 2) + (if s.exited then 0 else 2)
    + (if Show(p, s).sample.Some? || Show(p, s).mapping.Some? then 0 else 1)
  }

  lemma {:induction false} AdvanceDecreases(p: Process, s: Position)
    requires Settled(p, s) && s.time != NEVER
    ensures Measure(p, Advance(p, s)) < Measure(p, s) || Advance(p, s).time == NEVER
  {
  }

  /** Everything a settled replay still shows. */
  function From(p: Process, s: Position): seq<Shown>
    requires Settled(p, s)
    decreases s.time != NEVER, Measure(p, s)
  {
    if s.time == NEVER then []
    else
      AdvanceSettles(p, s);
      AdvanceDecreases(p, s);
      [Show(p, s)] + From(p, Advance(p, s))
  }

  lemma {:induction false} FromStep(p: Process, s: Position)
    requires Settled(p, s) && s.time != NEVER
    ensures var t := Advance(p, s);
      Settled(p, t) && From(p, s) == [Show(p, s)] + From(p, t) && (t.time == NEVER || Measure(p, t) < Measure(p, s))
  {
  }

  function Stream(p: Process): seq<Shown> {
    AdvanceSettles(p, Position(NEVER, 0, 0, false, false));
    From(p, Start(p))
  }

  // --- what a stream shows -----------------------------------------------------------------------------

  function SamplesOf(shown: seq<Shown>): seq<Event> {
    if shown == [] then [] else Listed(shown[0].sample) + SamplesOf(shown[1..])
  }

  function MappingsOf(shown: seq<Shown>): seq<Event> {
    if shown == [] then [] else Listed(shown[0].mapping) + MappingsOf(shown[1..])
  }

  function Listed(e: Option<Event>): seq<Event> {
    if e.Some? then [e.value] else []
  }

  /** The events that have a time, which are the first ones when sorted. */
  function Timed(events: seq<Event>): seq<Event> {
    if events == [] then []
    else (if events[0].time != NEVER then [events[0]] else []) + Timed(events[1..])
  }

  lemma {:induction false} TimedNever(events: seq<Event>)
    requires SortedBy(events, TimeOf) && (events != [] ==> events[0].time == NEVER)
    ensures Timed(events) == []
  {
    if events != [] {
      assert |events| > 1 ==> TimeOf(events[0]) <= TimeOf(events[1]);
      TimedNever(events[1..]);
    }
  }

  lemma {:induction false} SortedTail(events: seq<Event>, i: nat)
    requires SortedBy(events, TimeOf) && i <= |events|
    ensures SortedBy(events[i..], TimeOf)
  {
  }

  /** Advancing steps over exactly the event that was shown. */
  lemma {:induction false} StepsOver(events: seq<Event>, i: nat, time: u64, next: nat)
    requires i <= |events| && time != NEVER && next == i + |Listed(EventAt(events, i, time))|
    ensures next <= |events| && Timed(events[i..]) == Listed(EventAt(events, i, time)) + Timed(events[next..])
  {
    if next != i {
      assert events[i..][1..] == events[next..];
    }
  }

  lemma {:induction false} FirstShown(shown: Shown, rest: seq<Shown>)
    ensures SamplesOf([shown] + rest) == Listed(shown.sample) + SamplesOf(rest)
    ensures MappingsOf([shown] + rest) == Listed(shown.mapping) + MappingsOf(rest)
  {
    assert ([shown] + rest)[1..] == rest;
  }

  lemma {:induction false} NothingTimedLeft(events: seq<Event>, i: nat)
    requires SortedBy(events, TimeOf) && i <= |events| && (i < |events| ==> events[i].time == NEVER)
    ensures Timed(events[i..]) == []
  {
    SortedTail(events, i);
    TimedNever(events[i..]);
  }

  /** From a settled position on, every timed sample and mapping is shown once, in order. */
  lemma {:induction false} FromShowsAll(p: Process, s: Position)
    requires Sorted(p) && Settled(p, s) && s.sampleIndex <= |p.samples| && s.mappingIndex <= |p.mappings|
    ensures SamplesOf(From(p, s)) == Timed(p.samples[s.sampleIndex..])
    ensures MappingsOf(From(p, s)) == Timed(p.mappings[s.mappingIndex..])
    decreases s.time != NEVER, Measure(p, s)
  {
    if s.time == NEVER {
      NothingTimedLeft(p.samples, s.sampleIndex);
      NothingTimedLeft(p.mappings, s.mappingIndex);
    } else {
      var t := Advance(p, s);
      FromStep(p, s);
      StepsOver(p.samples, s.sampleIndex, s.time, t.sampleIndex);
      StepsOver(p.mappings, s.mappingIndex, s.time, t.mappingIndex);
      FromShowsAll(p, t);
      FirstShown(Show(p, s), From(p, t));
    }
  }

  /** A replay shows every sample and mapping that has a time exactly once, in the sorted order. */
  lemma {:induction false} StreamShowsAll(p: Process)
    requires Sorted(p)
    ensures SamplesOf(Stream(p)) == Timed(p.samples)
    ensures MappingsOf(Stream(p)) == Timed(p.mappings)
  {
    var s := Start(p);
    AdvanceSettles(p, Position(NEVER, 0, 0, false, false));
    FromShowsAll(p, s);
    SkippedAtStart(p.samples, s.sampleIndex);
    SkippedAtStart(p.mappings, s.mappingIndex);
  }

  /** Only an event without a time can be skipped by the advance at the start. */
  lemma {:induction false} SkippedAtStart(events: seq<Event>, i: nat)
    requires i == if EventAt(events, 0, NEVER).Some? then 1 else 0
    ensures i <= |events| && Timed(events[i..]) == Timed(events)
  {
  }

  /** Times never go back, and everything shown happens at the time it is shown with. */
  lemma {:induction false} FromIsOrdered(p: Process, s: Position)
    requires Sorted(p) && Settled(p, s)
    ensures forall k :: 0 <= k < |From(p, s)| ==> s.time <= From(p, s)[k].time < NEVER
    ensures forall j, k :: 0 <= j < k < |From(p, s)| ==> From(p, s)[j].time <= From(p, s)[k].time
    ensures forall k :: 0 <= k < |From(p, s)| ==> Honest(p, From(p, s)[k])
    decreases s.time != NEVER, Measure(p, s)
  {
    if s.time != NEVER {
      var t := Advance(p, s);
      FromStep(p, s);
      AdvanceIsLater(p, s);
      FromIsOrdered(p, t);
    }
  }

  predicate Honest(p: Process, shown: Shown) {
    && (shown.sample.Some? ==> shown.sample.value.time == shown.time)
    && (shown.mapping.Some? ==> shown.mapping.value.time == shown.time)
    && (shown.created <==> p.createTime == Some(shown.time))
    && (shown.exited <==> p.exitTime == Some(shown.time))
    && (shown.sample.Some? || shown.mapping.Some? || shown.created || shown.exited)
  }

  lemma {:induction false} AdvanceIsLater(p: Process, s: Position)
    requires Sorted(p) && Settled(p, s)
    ensures s.time <= Advance(p, s).time
  {
  }

  // --- how often a time is shown ---------------------------------------------------------------------------

  function CountAt(events: seq<Event>, time: u64): nat {
    if events == [] then 0 else (if events[0].time == time then 1 else 0) + CountAt(events[1..], time)
  }

  function ShownAt(shown: seq<Shown>, time: u64): nat {
    if shown == [] then 0 else (if shown[0].time == time then 1 else 0) + ShownAt(shown[1..], time)
  }

  function CreationsIn(shown: seq<Shown>): nat {
    if shown == [] then 0 else (if shown[0].created then 1 else 0) + CreationsIn(shown[1..])
  }

  function ExitsIn(shown: seq<Shown>): nat {
    if shown == [] then 0 else (if shown[0].exited then 1 else 0) + ExitsIn(shown[1..])
  }

  function Most(a: nat, b: nat, c: nat): nat {
    if a >= b && a >= c then a else if b >= c then b else c
  }

  /** Creation or exit have the time. */
  predicate StateAt(p: Process, time: u64) {
    p.createTime == Some(time) || p.exitTime == Some(time)
  }

  /** Creation and exit are flagged only once their time is reached. */
  predicate FlaggedInTime(p: Process, s: Position) {
    && (s.created ==> p.createTime.None? || p.createTime.value <= s.time)
    && (s.exited ==> p.exitTime.None? || p.exitTime.value <= s.time)
  }

  lemma {:induction false} NoneBefore(events: seq<Event>, time: u64)
    requires SortedBy(events, TimeOf) && (events != [] ==> time < events[0].time)
    ensures CountAt(events, time) == 0
  {
    if events != [] {
      SortedTail(events, 1);
      NoneBefore(events[1..], time);
    }
  }

  /** Stepping over the event shown lowers the count at its time and no other. */
  lemma {:induction false} CountStep(events: seq<Event>, i: nat, now: u64, time: u64)
    requires SortedBy(events, TimeOf) && i <= |events| && (i < |events| ==> now <= events[i].time) && now <= time
    ensures var shown := |Listed(EventAt(events, i, now))|;
      && i + shown <= |events|
      && CountAt(events[i..], time) == CountAt(events[i + shown..], time) + (if now == time then shown else 0)
      && (now == time && shown == 0 ==> CountAt(events[i..], time) == 0)
  {
    if i < |events| {
      assert events[i..][1..] == events[i + 1..];
      SortedTail(events, i);
      if now == time && events[i].time != now {
        NoneBefore(events[i..], time);
      }
    }
  }

  /** What is left from a position on that has nothing before a later time. */
  lemma {:induction false} CountLeft(events: seq<Event>, i: nat, later: u64, time: u64)
    requires SortedBy(events, TimeOf) && i <= |events| && (i < |events| ==> later <= events[i].time)
    ensures time < later ==> CountAt(events[i..], time) == 0
    ensures time == later ==> (EventAt(events, i, later).Some? <==> CountAt(events[i..], time) > 0)
  {
    SortedTail(events, i);
    if i < |events| && time < events[i].time {
      NoneBefore(events[i..], time);
    }
  }

  /** The number of times a settled replay still shows a time. */
  function Due(p: Process, s: Position, time: u64): nat
    requires s.sampleIndex <= |p.samples| && s.mappingIndex <= |p.mappings|
  {
    if time < s.time then 0
    else Most(if StateAt(p, time) then 1 else 0,
              CountAt(p.samples[s.sampleIndex..], time), CountAt(p.mappings[s.mappingIndex..], time))
  }

  predicate Running(p: Process, s: Position) {
    && Sorted(p) && Settled(p, s) && FlaggedInTime(p, s)
    && s.sampleIndex <= |p.samples| && s.mappingIndex <= |p.mappings|
  }

  lemma {:induction false} AdvanceRuns(p: Process, s: Position)
    requires Running(p, s)
    ensures Running(p, Advance(p, s))
  {
    AdvanceSettles(p, s);
    AdvanceIsLater(p, s);
  }

  /** The step on counts alone: one of each kind that is shown goes, and the state goes with the last. */
  lemma {:induction false} MostStep(state: nat, samples: nat, mappings: nat, sample: nat, mapping: nat)
    requires sample <= samples && mapping <= mappings && sample <= 1 && mapping <= 1 && state <= 1
    requires (sample == 0 ==> samples == 0) && (mapping == 0 ==> mappings == 0)
    requires sample + mapping + state > 0
    ensures Most(state, samples, mappings)
         == 1 + if samples > sample || mappings > mapping then Most(state, samples - sample, mappings - mapping) else 0
  {
  }

  /** An advance takes one from what is due at the time it leaves, and nothing from other times. */
  lemma {:induction false} DueStep(p: Process, s: Position, time: u64)
    requires Running(p, s) && s.time != NEVER && time != NEVER && Running(p, Advance(p, s))
    ensures Due(p, s, time) == Due(p, Advance(p, s), time) + if s.time == time then 1 else 0
  {
    var t := Advance(p, s);
    AdvanceIsLater(p, s);
    if s.time <= time {
      if s.time == time {
        DueNow(p, s);
      } else {
        CountStep(p.samples, s.sampleIndex, s.time, time);
        CountStep(p.mappings, s.mappingIndex, s.time, time);
        if time < t.time {
          CountLeft(p.samples, t.sampleIndex, t.time, time);
          CountLeft(p.mappings, t.mappingIndex, t.time, time);
          NothingSkipped(p, s, time);
        }
      }
    }
  }

  lemma {:induction false} DueNow(p: Process, s: Position)
    requires Running(p, s) && s.time != NEVER && Running(p, Advance(p, s)) && s.time <= Advance(p, s).time
    ensures Due(p, s, s.time) == Due(p, Advance(p, s), s.time) + 1
  {
    var (t, now) := (Advance(p, s), s.time);
    CountStep(p.samples, s.sampleIndex, now, now);
    CountStep(p.mappings, s.mappingIndex, now, now);
    CountLeft(p.samples, t.sampleIndex, t.time, now);
    CountLeft(p.mappings, t.mappingIndex, t.time, now);
    if t.time == now {
      StaysForEvents(p, s);
    }
    assert Happens(p, s);
    MostStep(if StateAt(p, now) then 1 else 0,
             CountAt(p.samples[s.sampleIndex..], now), CountAt(p.mappings[s.mappingIndex..], now),
             |Listed(EventAt(p.samples, s.sampleIndex, now))|, |Listed(EventAt(p.mappings, s.mappingIndex, now))|);
  }

  /** Creation and exit alone do not keep a replay at its time. */
  lemma {:induction false} StaysForEvents(p: Process, s: Position)
    requires Running(p, s) && s.time != NEVER && Advance(p, s).time == s.time
    ensures var t := Advance(p, s);
      EventAt(p.samples, t.sampleIndex, t.time).Some? || EventAt(p.mappings, t.mappingIndex, t.time).Some?
  {
  }

  lemma {:induction false} NothingSkipped(p: Process, s: Position, time: u64)
    requires Running(p, s) && Running(p, Advance(p, s)) && s.time < time < Advance(p, s).time
    ensures !StateAt(p, time)
  {
  }

  lemma {:induction false} FromShowsTimes(p: Process, s: Position, time: u64)
    requires Running(p, s) && time != NEVER
    ensures ShownAt(From(p, s), time) == Due(p, s, time)
    decreases s.time != NEVER, Measure(p, s)
  {
    if s.time != NEVER {
      var t := Advance(p, s);
      FromStep(p, s);
      AdvanceRuns(p, s);
      FromShowsTimes(p, t, time);
      assert From(p, s)[1..] == From(p, t);
      DueStep(p, s, time);
    }
  }

  /**
   A stream shows a time as often as it takes to get past the samples and the mappings of that time, one of
   each in a step, and once when there is only a creation or an exit.
   */
  lemma {:induction false} StreamShowsTimes(p: Process, time: u64)
    requires Sorted(p) && time != NEVER
    ensures ShownAt(Stream(p), time)
         == Most(if StateAt(p, time) then 1 else 0, CountAt(p.samples, time), CountAt(p.mappings, time))
  {
    var s := Start(p);
    AdvanceSettles(p, Position(NEVER, 0, 0, false, false));
    CountAfterStart(p.samples, s.sampleIndex, time);
    CountAfterStart(p.mappings, s.mappingIndex, time);
    FromShowsTimes(p, s, time);
    if time < s.time {
      NoneBefore(p.samples[s.sampleIndex..], time);
      NoneBefore(p.mappings[s.mappingIndex..], time);
    }
  }

  lemma {:induction false} CountAfterStart(events: seq<Event>, i: nat, time: u64)
    requires SortedBy(events, TimeOf) && i == (if EventAt(events, 0, NEVER).Some? then 1 else 0) && time != NEVER
    ensures i <= |events| && CountAt(events[i..], time) == CountAt(events, time) && SortedBy(events[i..], TimeOf)
  {
    SortedTail(events, i);
    assert i == 0 ==> events[i..] == events;
  }

  /** How often a creation or exit at a time is shown: again on every step that stays at that time. */
  function TimesShown(p: Process, at: Option<u64>): nat {
    if at.None? || at.value == NEVER then 0
    else Most(1, CountAt(p.samples, at.value), CountAt(p.mappings, at.value))
  }

  lemma {:induction false} StatesAtTheirTime(p: Process, shown: seq<Shown>)
    requires forall k :: 0 <= k < |shown| ==> Honest(p, shown[k])
    ensures CreationsIn(shown) == if p.createTime.Some? then ShownAt(shown, p.createTime.value) else 0
    ensures ExitsIn(shown) == if p.exitTime.Some? then ShownAt(shown, p.exitTime.value) else 0
  {
    if shown != [] {
      StatesAtTheirTime(p, shown[1..]);
    }
  }

  lemma {:induction false} NotShownAt(shown: seq<Shown>, time: u64)
    requires forall k :: 0 <= k < |shown| ==> shown[k].time < time
    ensures ShownAt(shown, time) == 0
  {
    if shown != [] {
      NotShownAt(shown[1..], time);
    }
  }

  /** The exact number of times creation and exit are shown. */
  lemma {:induction false} StreamShowsStates(p: Process)
    requires Sorted(p)
    ensures CreationsIn(Stream(p)) == TimesShown(p, p.createTime)
    ensures ExitsIn(Stream(p)) == TimesShown(p, p.exitTime)
  {
    AdvanceSettles(p, Position(NEVER, 0, 0, false, false));
    FromIsOrdered(p, Start(p));
    StatesAtTheirTime(p, Stream(p));
    NotShownAt(Stream(p), NEVER);
    if p.createTime.Some? && p.createTime.value != NEVER {
      StreamShowsTimes(p, p.createTime.value);
    }
    if p.exitTime.Some? && p.exitTime.value != NEVER {
      StreamShowsTimes(p, p.exitTime.value);
    }
  }

  /** A creation is shown exactly once unless two samples or two mappings share its time; an exit as well. */
  lemma {:induction false} ShownOnceIff(p: Process, time: u64)
    requires Sorted(p) && time != NEVER
    ensures p.createTime == Some(time) ==>
              (CreationsIn(Stream(p)) == 1 <==> CountAt(p.samples, time) <= 1 && CountAt(p.mappings, time) <= 1)
    ensures p.exitTime == Some(time) ==>
              (ExitsIn(Stream(p)) == 1 <==> CountAt(p.samples, time) <= 1 && CountAt(p.mappings, time) <= 1)
  {
    StreamShowsStates(p);
  }

  /** Two samples at the time of the creation: it is shown twice. */
  lemma {:induction false} CreationShownTwice()
    ensures var p := Process(1, [Event(5, 1), Event(5, 2)], [], Some(5), None);
      Sorted(p) && |Stream(p)| == 2 && Stream(p)[0].created && Stream(p)[1].created && CreationsIn(Stream(p)) == 2
  {
    var p := Process(1, [Event(5, 1), Event(5, 2)], [], Some(5), None);
    var s := Start(p);
    assert s == Position(5, 0, 0, true, true);
    FromStep(p, s);
    var t := Advance(p, s);
    assert t == Position(5, 1, 0, true, true);
    FromStep(p, t);
    assert Advance(p, t).time == NEVER;
    assert From(p, s) == [Show(p, s), Show(p, t)];
  }

  /** Every sample and mapping once and in order, creation and exit as often as their times ask for. */
  predicate InFull(p: Process, shown: seq<Shown>) {
    && SamplesOf(shown) == Timed(p.samples) && MappingsOf(shown) == Timed(p.mappings)
    && CreationsIn(shown) == TimesShown(p, p.createTime) && ExitsIn(shown) == TimesShown(p, p.exitTime)
  }

  lemma {:induction false} StreamIsInFull(p: Process)
    requires Sorted(p)
    ensures InFull(p, Stream(p))
  {
    StreamShowsAll(p);
    StreamShowsStates(p);
  }
}
