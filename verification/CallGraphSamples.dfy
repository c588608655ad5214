/** What samples contribute to a call graph, and the graph built from them with a callstack cache. */
module CallGraphSamples {
  import opened Outcome
  import opened CallGraphs
  import opened MachineInt
  import opened Mappings

  datatype Sample = Sample(time: nat, kind: nat, ip: nat, callstack: nat, value: nat)

  /** Frames of the stored callstacks, innermost first. */
  type Callstacks = map<nat, seq<nat>>

  /** What an address is imported as at a time. */
  type Import = (nat, nat) -> Target

  // --- what each sample contributes -----------------------------------------------------------------

  /** The samples of a kind. */
  function Kept(samples: seq<Sample>, kind: nat): seq<Sample> {
    if samples == [] then []
    else
      var last := samples[|samples| - 1];
      Kept(samples[..|samples| - 1], kind) + (if last.kind == kind then [last] else [])
  }

  predicate Uses(kept: seq<Sample>, callstack: nat) {
    exists k :: 0 <= k < |kept| && kept[k].callstack == callstack
  }

  /** When a callstack was first seen. */
  function FirstTime(kept: seq<Sample>, callstack: nat): nat
    requires Uses(kept, callstack)
  {
    var before := kept[..|kept| - 1];
    if Uses(before, callstack) then FirstTime(before, callstack) else kept[|kept| - 1].time
  }

  function FramesOf(callstacks: Callstacks, callstack: nat): seq<nat> {
    if callstack in callstacks then callstacks[callstack] else []
  }

  /** The targets of frames stored innermost first, outermost first. */
  function PathDown(frames: seq<nat>, time: nat, importIp: Import): (path: seq<Target>)
    ensures |path| == |frames|
  {
    if frames == [] then [] else PathDown(frames[1..], time, importIp) + [importIp(time, frames[0])]
  }

  /** The path goes from the outermost frame, which is stored last, to the innermost. */
  lemma {:induction false} PathGoesInwards(frames: seq<nat>, time: nat, importIp: Import, k: nat)
    requires k < |frames|
    ensures PathDown(frames, time, importIp)[k] == importIp(time, frames[|frames| - 1 - k])
  {
    if k < |frames| - 1 {
      PathGoesInwards(frames[1..], time, importIp, k);
    }
  }

  /** The path of a callstack, with frames imported as when it was first seen. */
  function CachedPath(kept: seq<Sample>, callstack: nat, callstacks: Callstacks, importIp: Import): seq<Target>
    requires Uses(kept, callstack)
  {
    PathDown(FramesOf(callstacks, callstack), FirstTime(kept, callstack), importIp)
  }

  /** What the last of some samples contributes: its callstack's cached path, then its own address. */
  function LastContribution(kept: seq<Sample>, callstacks: Callstacks, importIp: Import): Contribution
    requires kept != []
  {
    var last := kept[|kept| - 1];
    Contribution(CachedPath(kept, last.callstack, callstacks, importIp) + [importIp(last.time, last.ip)], last.value)
  }

  function Contributions(kept: seq<Sample>, callstacks: Callstacks, importIp: Import): seq<Contribution> {
    if kept == [] then []
    else Contributions(kept[..|kept| - 1], callstacks, importIp) + [LastContribution(kept, callstacks, importIp)]
  }

  /** A sample with all its frames imported at its own time. */
  function Anew(sample: Sample, callstacks: Callstacks, importIp: Import): Contribution {
    Contribution(PathDown(FramesOf(callstacks, sample.callstack), sample.time, importIp)
                 + [importIp(sample.time, sample.ip)], sample.value)
  }

  /** Every frame of every sample imported anew. */
  function Remerged(kept: seq<Sample>, callstacks: Callstacks, importIp: Import): seq<Contribution> {
    if kept == [] then []
    else Remerged(kept[..|kept| - 1], callstacks, importIp) + [Anew(kept[|kept| - 1], callstacks, importIp)]
  }

  /** The values counted twice at the root: those of repeated callstacks without frames. */
  function Excess(kept: seq<Sample>, callstacks: Callstacks): nat {
    if kept == [] then 0
    else
      var before, last := kept[..|kept| - 1], kept[|kept| - 1];
      Excess(before, callstacks) + ExcessOf(before, last, callstacks)
  }

  function ExcessOf(kept: seq<Sample>, sample: Sample, callstacks: Callstacks): nat {
    if Uses(kept, sample.callstack) && FramesOf(callstacks, sample.callstack) == [] then sample.value else 0
  }

  lemma {:induction false} ContributionsSnoc(kept: seq<Sample>, sample: Sample, callstacks: Callstacks,
                                             importIp: Import)
    ensures Contributions(kept + [sample], callstacks, importIp)
         == Contributions(kept, callstacks, importIp) + [LastContribution(kept + [sample], callstacks, importIp)]
    ensures Excess(kept + [sample], callstacks) == Excess(kept, callstacks) + ExcessOf(kept, sample, callstacks)
  {
  }

  lemma {:induction false} KeptNext(samples: seq<Sample>, n: nat, kind: nat)
    requires n < |samples|
    ensures Kept(samples[..n + 1], kind)
         == Kept(samples[..n], kind) + if samples[n].kind == kind then [samples[n]] else []
  {
    assert samples[..n + 1][..n] == samples[..n];
  }

  /** The sums after one more sample, on top of what a graph held before. */
  lemma {:induction false} ContributionsNext(before: seq<Contribution>, kept: seq<Sample>, sample: Sample,
                                             callstacks: Callstacks, importIp: Import)
    ensures before + Contributions(kept, callstacks, importIp)
              + [LastContribution(kept + [sample], callstacks, importIp)]
         == before + Contributions(kept + [sample], callstacks, importIp)
    ensures Excess(kept + [sample], callstacks) == Excess(kept, callstacks) + ExcessOf(kept, sample, callstacks)
  {
  }

  /** Rising positions of exactly the samples of a kind. */
  predicate Picks(samples: seq<Sample>, kind: nat, at: seq<nat>) {
    && (forall i, j :: 0 <= i < j < |at| ==> at[i] < at[j])
    && (forall i :: 0 <= i < |at| ==> at[i] < |samples|)
    && forall n :: 0 <= n < |samples| ==> (samples[n].kind == kind <==> n in at)
  }

  predicate StandsAt(samples: seq<Sample>, at: seq<nat>, kept: seq<Sample>) {
    |at| == |kept| && forall i :: 0 <= i < |at| ==> at[i] < |samples| && samples[at[i]] == kept[i]
  }

  /** The samples of a kind are exactly those, in their order. */
  lemma {:induction false} KeptAre(samples: seq<Sample>, kind: nat) returns (at: seq<nat>)
    ensures Picks(samples, kind, at) && StandsAt(samples, at, Kept(samples, kind))
  {
    at := [];
    if samples != [] {
      var before, last := samples[..|samples| - 1], samples[|samples| - 1];
      at := KeptAre(before, kind);
      assert before + [last] == samples;
      PicksNext(before, last, kind, at, Kept(before, kind), |before|);
      if last.kind == kind {
        at := at + [|before|];
      }
    }
  }

  lemma {:induction false} PicksNext(before: seq<Sample>, last: Sample, kind: nat, at: seq<nat>, kept: seq<Sample>,
                                     n: nat)
    requires Picks(before, kind, at) && StandsAt(before, at, kept) && n == |before|
    ensures last.kind == kind ==>
              Picks(before + [last], kind, at + [n]) && StandsAt(before + [last], at + [n], kept + [last])
    ensures last.kind != kind ==> Picks(before + [last], kind, at) && StandsAt(before + [last], at, kept)
  {
    assert n !in at;
    assert forall m :: m in at + [n] <==> m in at || m == n;
  }

  /** A callstack was first seen with the first sample that has it. */
  lemma {:induction false} FirstTimeIs(kept: seq<Sample>, c: nat, k: nat)
    requires k < |kept| && kept[k].callstack == c && forall j :: 0 <= j < k ==> kept[j].callstack != c
    ensures Uses(kept, c) && FirstTime(kept, c) == kept[k].time
    decreases |kept|
  {
    assert Uses(kept, c);
    var before := kept[..|kept| - 1];
    if k < |kept| - 1 {
      FirstTimeIs(before, c, k);
    } else {
      assert forall j :: 0 <= j < |before| ==> before[j] == kept[j];
      assert !Uses(before, c);
    }
  }

  /**
   Every sample contributes its value at a path: the frames of its callstack from the outermost in, imported when the
   callstack was first seen, and then its own address, imported at its own time.
   */
  lemma {:induction false} ContributionIs(kept: seq<Sample>, callstacks: Callstacks, importIp: Import, n: nat, k: nat)
    requires k <= n < |kept| && kept[k].callstack == kept[n].callstack
    requires forall j :: 0 <= j < k ==> kept[j].callstack != kept[n].callstack
    ensures |Contributions(kept, callstacks, importIp)| == |kept|
    ensures var (x, frames) := (Contributions(kept, callstacks, importIp)[n], FramesOf(callstacks, kept[n].callstack));
      && x.value == kept[n].value && |x.path| == |frames| + 1
      && x.path[|frames|] == importIp(kept[n].time, kept[n].ip)
      && forall i :: 0 <= i < |frames| ==> x.path[i] == importIp(kept[k].time, frames[|frames| - 1 - i])
    decreases |kept|
  {
    var before := kept[..|kept| - 1];
    ContributionCount(kept, callstacks, importIp);
    if n < |kept| - 1 {
      ContributionIs(before, callstacks, importIp, n, k);
    } else {
      var frames := FramesOf(callstacks, kept[n].callstack);
      FirstTimeIs(kept, kept[n].callstack, k);
      forall i | 0 <= i < |frames|
        ensures PathDown(frames, kept[k].time, importIp)[i] == importIp(kept[k].time, frames[|frames| - 1 - i])
      {
        PathGoesInwards(frames, kept[k].time, importIp, i);
      }
    }
  }

  lemma {:induction false} ContributionCount(kept: seq<Sample>, callstacks: Callstacks, importIp: Import)
    ensures |Contributions(kept, callstacks, importIp)| == |kept|
  {
    if kept != [] {
      ContributionCount(kept[..|kept| - 1], callstacks, importIp);
    }
  }

  // --- when the cache changes nothing -----------------------------------------------------------------

  /** Frames that are imported as the same targets at two times. */
  predicate SameTargets(frames: seq<nat>, s: nat, t: nat, importIp: Import) {
    forall i :: 0 <= i < |frames| ==> importIp(s, frames[i]) == importIp(t, frames[i])
  }

  lemma {:induction false} SamePathIff(frames: seq<nat>, s: nat, t: nat, importIp: Import)
    ensures PathDown(frames, s, importIp) == PathDown(frames, t, importIp) <==> SameTargets(frames, s, t, importIp)
  {
    if frames != [] {
      var rest := frames[1..];
      SamePathIff(rest, s, t, importIp);
      SameEnds(PathDown(rest, s, importIp), importIp(s, frames[0]), PathDown(rest, t, importIp),
               importIp(t, frames[0]));
      assert SameTargets(frames, s, t, importIp)
        <==> importIp(s, frames[0]) == importIp(t, frames[0]) && SameTargets(rest, s, t, importIp) by {
        assert forall i :: 0 <= i < |rest| ==> rest[i] == frames[i + 1];
        assert forall i :: 1 <= i < |frames| ==> frames[i] == rest[i - 1];
      }
    }
  }

  lemma {:induction false} SameEnds<T>(p: seq<T>, x: T, q: seq<T>, y: T)
    ensures p + [x] == q + [y] <==> p == q && x == y
  {
    if p + [x] == q + [y] {
      assert p == (p + [x])[..|p|] && q == (q + [y])[..|q|];
      assert x == (p + [x])[|p|] && y == (q + [y])[|q|];
    }
  }

  /** If its callstack was seen before, the sample's frames import as they did then. */
  ghost predicate ImportsAlike(kept: seq<Sample>, k: nat, callstacks: Callstacks, importIp: Import)
    requires k < |kept|
  {
    var c := kept[k].callstack;
    Uses(kept[..k], c) ==> SameTargets(FramesOf(callstacks, c), FirstTime(kept[..k], c), kept[k].time, importIp)
  }

  ghost predicate AllAlike(kept: seq<Sample>, callstacks: Callstacks, importIp: Import) {
    forall k :: 0 <= k < |kept| ==> ImportsAlike(kept, k, callstacks, importIp)
  }

  /** An import that goes by the mapping a scan finds for the address and the time. */
  ghost predicate ImportsFrom(importIp: Import, ms: seq<Mapping>, find: (nat, nat) -> Option<nat>,
                              target: (Option<nat>, nat) -> Target) {
    forall t: u64, ip: u64 :: IsScanned(ms, ip, t, find(t, ip)) && importIp(t, ip) == target(find(t, ip), ip)
  }

  /** No mapping of an address appears after one time and up to another. */
  predicate NoneAppears(ms: seq<Mapping>, ip: u64, s: u64, t: u64) {
    forall m :: 0 <= m < |ms| && ms[m].ContainsIp(ip) ==> !(s < ms[m].time <= t) && !(t < ms[m].time <= s)
  }

  /** Frames import alike where no mapping of theirs appears in between, however many appear elsewhere. */
  lemma {:induction false} UnmappedInBetween(frames: seq<nat>, s: u64, t: u64, importIp: Import, ms: seq<Mapping>,
                                             find: (nat, nat) -> Option<nat>, target: (Option<nat>, nat) -> Target)
    requires ImportsFrom(importIp, ms, find, target)
    requires forall i :: 0 <= i < |frames| ==> frames[i] < TWO_64 && NoneAppears(ms, frames[i], s, t)
    ensures SameTargets(frames, s, t, importIp)
  {
    forall i | 0 <= i < |frames|
      ensures importIp(s, frames[i]) == importIp(t, frames[i])
    {
      ScanIsUnchanged(ms, frames[i], s, t, find(s, frames[i]), find(t, frames[i]));
    }
  }

  lemma {:induction false} AllAlikeSnoc(before: seq<Sample>, last: Sample, callstacks: Callstacks, importIp: Import)
    ensures AllAlike(before + [last], callstacks, importIp)
      <==> (AllAlike(before, callstacks, importIp)
            && ImportsAlike(before + [last], |before|, callstacks, importIp))
  {
    var kept := before + [last];
    forall k | 0 <= k < |before|
      ensures ImportsAlike(kept, k, callstacks, importIp) == ImportsAlike(before, k, callstacks, importIp)
    {
      assert kept[..k] == before[..k] && kept[k] == before[k];
    }
  }

  /** The last sample contributes as if it were imported anew exactly when its frames import alike. */
  lemma {:induction false} LastIsAnewIff(before: seq<Sample>, last: Sample, callstacks: Callstacks, importIp: Import)
    ensures var kept := before + [last];
      LastContribution(kept, callstacks, importIp) == Anew(last, callstacks, importIp)
      <==> ImportsAlike(kept, |before|, callstacks, importIp)
  {
    var kept, frames := before + [last], FramesOf(callstacks, last.callstack);
    assert kept[..|before|] == before;
    UsesSnoc(before, last, last.callstack);
    var first := FirstTime(kept, last.callstack);
    SamePathIff(frames, first, last.time, importIp);
    SameEnds(PathDown(frames, first, importIp), importIp(last.time, last.ip),
             PathDown(frames, last.time, importIp), importIp(last.time, last.ip));
  }

  /**
   The cache changes no contribution exactly when the frames of every repeated callstack import at the
   sample's time as they did when the callstack was first seen.
   */
  lemma {:induction false} CachingIsRemergingIff(kept: seq<Sample>, callstacks: Callstacks, importIp: Import)
    ensures Contributions(kept, callstacks, importIp) == Remerged(kept, callstacks, importIp)
       <==> AllAlike(kept, callstacks, importIp)
  {
    if kept != [] {
      var before, last := kept[..|kept| - 1], kept[|kept| - 1];
      assert before + [last] == kept;
      CachingIsRemergingIff(before, callstacks, importIp);
      AllAlikeSnoc(before, last, callstacks, importIp);
      LastIsAnewIff(before, last, callstacks, importIp);
      SameEnds(Contributions(before, callstacks, importIp), LastContribution(kept, callstacks, importIp),
               Remerged(before, callstacks, importIp), Anew(last, callstacks, importIp));
    }
  }

  lemma {:induction false} SameValues(kept: seq<Sample>, callstacks: Callstacks, importIp: Import)
    ensures Values(Contributions(kept, callstacks, importIp)) == Values(Remerged(kept, callstacks, importIp))
  {
    if kept != [] {
      var before, last := kept[..|kept| - 1], kept[|kept| - 1];
      SameValues(before, callstacks, importIp);
      var (cs, x) := (Contributions(before, callstacks, importIp), LastContribution(kept, callstacks, importIp));
      var (ds, y) := (Remerged(before, callstacks, importIp), Anew(last, callstacks, importIp));
      assert (cs + [x])[..|cs|] == cs && (ds + [y])[..|ds|] == ds;
    }
  }

  /** No repeated callstack without frames adds anything. */
  ghost predicate NoneTwice(kept: seq<Sample>, callstacks: Callstacks) {
    forall k :: 0 <= k < |kept| && Uses(kept[..k], kept[k].callstack) ==>
      FramesOf(callstacks, kept[k].callstack) != [] || kept[k].value == 0
  }

  /** There is no excess exactly when every repeated callstack has a frame or adds nothing. */
  lemma {:induction false} NoExcessIff(kept: seq<Sample>, callstacks: Callstacks)
    ensures Excess(kept, callstacks) == 0 <==> NoneTwice(kept, callstacks)
  {
    if kept != [] {
      var before := kept[..|kept| - 1];
      NoExcessIff(before, callstacks);
      assert forall k :: 0 <= k < |before| ==> before[..k] == kept[..k] && before[k] == kept[k];
    }
  }

  /** The cache knows the callstacks seen, each by the node its cached path ends at. */
  ghost predicate Cached(ps: seq<Place>, cache: map<nat, nat>, kept: seq<Sample>, callstacks: Callstacks,
                         importIp: Import)
    requires Tree(ps)
  {
    && (forall c :: Uses(kept, c) ==> c in cache)
    && (forall c :: c in cache ==> Uses(kept, c) && EndsAt(ps, cache[c], CachedPath(kept, c, callstacks, importIp)))
  }

  predicate EndsAt(ps: seq<Place>, id: nat, path: seq<Target>)
    requires Tree(ps)
  {
    id < |ps| && PathOf(ps, id) == path
  }

  lemma {:induction false} UsesSnoc(kept: seq<Sample>, sample: Sample, c: nat)
    ensures Uses(kept + [sample], c) <==> Uses(kept, c) || c == sample.callstack
    ensures Uses(kept, c) ==> FirstTime(kept + [sample], c) == FirstTime(kept, c)
    ensures !Uses(kept, c) && c == sample.callstack ==> FirstTime(kept + [sample], c) == sample.time
  {
    var after := kept + [sample];
    assert after[..|kept|] == kept;
    if Uses(kept, c) {
      var k :| 0 <= k < |kept| && kept[k].callstack == c;
      assert after[k].callstack == c;
    } else if c == sample.callstack {
      assert after[|kept|].callstack == c;
    }
  }

  /** One more sample keeps the cache right, given its own callstack's entry is. */
  lemma {:induction false} CachedSnoc(ps: seq<Place>, qs: seq<Place>, cache: map<nat, nat>, kept: seq<Sample>,
                                      sample: Sample, id: nat, callstacks: Callstacks, importIp: Import)
    requires Tree(ps) && Tree(qs) && |ps| <= |qs|
    requires forall i :: 0 <= i < |ps| ==> PathOf(qs, i) == PathOf(ps, i)
    requires Cached(ps, cache, kept, callstacks, importIp)
    requires sample.callstack in cache ==> id == cache[sample.callstack]
    requires sample.callstack !in cache ==>
               EndsAt(qs, id, PathDown(FramesOf(callstacks, sample.callstack), sample.time, importIp))
    ensures Cached(qs, cache[sample.callstack := id], kept + [sample], callstacks, importIp)
  {
    var after := kept + [sample];
    forall c: nat
      ensures Uses(after, c) ==> c in cache[sample.callstack := id]
      ensures c in cache[sample.callstack := id] ==>
                && Uses(after, c)
                && EndsAt(qs, cache[sample.callstack := id][c], CachedPath(after, c, callstacks, importIp))
    {
      UsesSnoc(kept, sample, c);
      if c in cache {
        assert EndsAt(ps, cache[c], CachedPath(kept, c, callstacks, importIp));
      }
    }
  }

  // --- single changes of the graph ------------------------------------------------------------------

  function Shape(nodes: seq<Node>): seq<Place> {
    seq(|nodes|, i requires 0 <= i < |nodes| => Place(nodes[i].target, nodes[i].parent, nodes[i].children))
  }

  /** `after` is `before` with `value` more on the total of `id` and of all nodes above it. */
  predicate Charged(before: seq<Node>, after: seq<Node>, id: nat, value: nat)
    requires Tree(Shape(before)) && id < |before|
  {
    && |after| == |before|
    && forall i :: 0 <= i < |before| ==>
         after[i] == before[i].(total := before[i].total + if OnPath(Shape(before), i, id) then value else 0)
  }

  /** `after` has the child `id` of `at` for the target, and `value` more on the total of `at`. */
  predicate Merged(before: seq<Node>, after: seq<Node>, at: nat, target: Target, value: nat, id: nat)
    requires Tree(Shape(before)) && at < |before|
  {
    && (Shape(after), id) == Extend(Shape(before), at, target)
    && forall i :: 0 <= i < |after| ==>
         && after[i].id == (if i < |before| then before[i].id else i)
         && after[i].exclusive == (if i < |before| then before[i].exclusive else 0)
         && after[i].total == (if i < |before| then before[i].total else 0) + if i == at then value else 0
  }

  // --- the same changes, counted ---------------------------------------------------------------------

  lemma {:induction false} CountedShape(cs: seq<Contribution>, excess: nat, ps: seq<Place>, path: seq<Target>,
                                        value: nat)
    requires Tree(ps)
    ensures Shape(Counted(cs, excess, ps, path, value)) == ps
  {
  }

  /** Charging above a node gives the counts of a sample whose frames end at that node. */
  lemma {:induction false} ChargedIsCounted(cs: seq<Contribution>, excess: nat, ps: seq<Place>, after: seq<Node>,
                                            id: nat, value: nat)
    requires Tree(ps) && id < |ps| && ps[id].parent < |ps|
    requires Tree(Shape(Counted(cs, excess, ps, [], 0)))
    requires Charged(Counted(cs, excess, ps, [], 0), after, ps[id].parent, value)
    ensures after == Counted(cs, excess + if id == 0 then value else 0, ps, PathOf(ps, id), value)
  {
    CountedShape(cs, excess, ps, [], 0);
    var more := excess + if id == 0 then value else 0;
    forall i | 0 <= i < |ps|
      ensures after[i] == CountedNode(cs, more, ps, PathOf(ps, id), value, i)
    {
      assert Counted(cs, excess, ps, [], 0)[i] == CountedNode(cs, excess, ps, [], 0, i);
      ChargedNode(ps, id, i);
    }
  }

  lemma {:induction false} ChargedNode(ps: seq<Place>, id: nat, i: nat)
    requires Tree(ps) && i < |ps| && id < |ps|
    ensures ps[id].parent < |ps|
    ensures OnPath(ps, i, ps[id].parent) <==> (i == 0 && id == 0) || PathOf(ps, i) < PathOf(ps, id)
  {
    assert id != 0 ==> ParentOk(ps, id);
    OnPathIsPrefix(ps, i, ps[id].parent);
    if id != 0 {
      var p, q := PathOf(ps, ps[id].parent), PathOf(ps, id);
      assert q[..|p|] == p && |q| == |p| + 1;
      assert PathOf(ps, i) < q ==> PathOf(ps, i) <= q[..|p|];
      if PathOf(ps, i) <= p {
        assert PathOf(ps, i) <= q;
      }
    }
  }

  /** Merging a frame below the path merged so far gives the counts for the longer path. */
  lemma {:induction false} MergedIsCounted(cs: seq<Contribution>, excess: nat, ps: seq<Place>, path: seq<Target>,
                                           value: nat,
                                           at: nat, target: Target, after: seq<Node>, id: nat)
    requires Tree(ps) && at < |ps| && PathOf(ps, at) == path
    requires forall c :: c in cs ==> Present(ps, c.path)
    requires Tree(Shape(Counted(cs, excess, ps, path, value)))
    requires Merged(Counted(cs, excess, ps, path, value), after, at, target, value, id)
    ensures (Shape(after), id) == Extend(ps, at, target)
    ensures after == Counted(cs, excess, Extend(ps, at, target).0, path + [target], value)
  {
    var before := Counted(cs, excess, ps, path, value);
    CountedShape(cs, excess, ps, path, value);
    var qs := Shape(after);
    ExtendPath(ps, at, target);
    forall i | 0 <= i < |qs|
      ensures after[i] == CountedNode(cs, excess, qs, path + [target], value, i)
    {
      assert Shape(after)[i] == Place(after[i].target, after[i].parent, after[i].children);
      if i < |ps| {
        assert before[i] == CountedNode(cs, excess, ps, path, value, i);
        LongerPrefix(ps, at, i, target);
      } else {
        NewPathIsUnused(cs, ps, at, target);
      }
    }
  }

  lemma {:induction false} LongerPrefix(ps: seq<Place>, at: nat, i: nat, target: Target)
    requires Tree(ps) && at < |ps| && i < |ps|
    ensures PathOf(ps, i) < PathOf(ps, at) + [target] <==> PathOf(ps, i) < PathOf(ps, at) || i == at
  {
    var p, q := PathOf(ps, i), PathOf(ps, at);
    if p < q + [target] {
      assert p <= (q + [target])[..|q|] == q;
      if |p| == |q| {
        PathIsInjective(ps, i, at);
      }
    }
  }

  /** A target no child of the node has was not merged below it before. */
  lemma {:induction false} NewPathIsUnused(cs: seq<Contribution>, ps: seq<Place>, at: nat, target: Target)
    requires Tree(ps) && at < |ps| && |Extend(ps, at, target).0| > |ps|
    requires forall c :: c in cs ==> Present(ps, c.path)
    ensures Through(cs, PathOf(ps, at) + [target]) == 0 && At(cs, PathOf(ps, at) + [target]) == 0
  {
    var path := PathOf(ps, at) + [target];
    assert ChildrenOk(ps, at);
    forall i | 0 <= i < |ps|
      ensures PathOf(ps, i) != path
    {
      if PathOf(ps, i) == path {
        LongerPathIsChild(ps, at, target, i);
        assert false;
      }
    }
    AbsentIsUnused(cs, ps, path);
  }

  /** A node with a value more of its own. */
  function Landed(node: Node, value: nat): Node {
    node.(exclusive := node.exclusive + value, total := node.total + value)
  }

  /** Adding the value to the last node completes the sample. */
  lemma {:induction false} LandedIsCounted(cs: seq<Contribution>, excess: nat, ps: seq<Place>, id: nat, value: nat)
    requires Tree(ps) && id < |ps|
    requires ps == Grow(cs + [Contribution(PathOf(ps, id), value)])
    ensures var nodes := Counted(cs, excess, ps, PathOf(ps, id), value);
      nodes[id := Landed(nodes[id], value)] == Recount(cs + [Contribution(PathOf(ps, id), value)], excess)
  {
    var last := Contribution(PathOf(ps, id), value);
    forall i | 0 <= i < |ps|
      ensures var node := CountedNode(cs, excess, ps, last.path, value, i);
        CountedNode(cs + [last], excess, ps, [], 0, i)
        == if i == id then Landed(node, value) else node
    {
      LandedNode(cs, excess, ps, id, value, i);
    }
  }

  /** The same for the node a whole path leads to. */
  lemma {:induction false} ReachedIsLanded(cs: seq<Contribution>, excess: nat, path: seq<Target>, value: nat, id: nat,
                                           nodes: seq<Node>)
    requires id == ExtendAll(Grow(cs), 0, path).1
    requires nodes == Counted(cs, excess, ExtendAll(Grow(cs), 0, path).0, path, value)
    ensures id < |nodes|
    ensures nodes[id := Landed(nodes[id], value)] == Recount(cs + [Contribution(path, value)], excess)
  {
    var ps := ExtendAll(Grow(cs), 0, path).0;
    ExtendAllPath(Grow(cs), 0, path);
    assert PathOf(ps, id) == path;
    assert (cs + [Contribution(path, value)])[..|cs|] == cs;
    LandedIsCounted(cs, excess, ps, id, value);
  }

  lemma {:induction false} LandedNode(cs: seq<Contribution>, excess: nat, ps: seq<Place>, id: nat, value: nat, i: nat)
    requires Tree(ps) && id < |ps| && i < |ps|
    ensures var last := Contribution(PathOf(ps, id), value);
      var node := CountedNode(cs, excess, ps, last.path, value, i);
      CountedNode(cs + [last], excess, ps, [], 0, i)
      == if i == id then Landed(node, value) else node
  {
    var last := Contribution(PathOf(ps, id), value);
    assert (cs + [last])[..|cs|] == cs;
    if PathOf(ps, i) == PathOf(ps, id) {
      PathIsInjective(ps, i, id);
    }
  }

  /** A sample's contribution keeps all paths, and the node its frames end at. */
  lemma {:induction false} GrowKeeps(cs: seq<Contribution>, path: seq<Target>, target: Target, value: nat)
    ensures var (ps, qs) := (Grow(cs), Grow(cs + [Contribution(path + [target], value)]));
      && |ps| <= |qs|
      && (forall i :: 0 <= i < |ps| ==> PathOf(qs, i) == PathOf(ps, i))
      && EndsAt(qs, ExtendAll(ps, 0, path).1, path)
  {
    var last := Contribution(path + [target], value);
    assert (cs + [last])[..|cs|] == cs;
    ExtendAllPath(Grow(cs), 0, path + [target]);
    ExtendAllPath(Grow(cs), 0, path);
    ExtendAllSnoc(Grow(cs), 0, path, target);
    var (ps, id) := ExtendAll(Grow(cs), 0, path);
    ExtendPath(ps, id, target);
  }

  /** The cache stays right when a sample is added whose callstack ends at its entry. */
  lemma {:induction false} CachedStays(cs: seq<Contribution>, path: seq<Target>, target: Target, cache: map<nat, nat>,
                                       kept: seq<Sample>, sample: Sample, id: nat, callstacks: Callstacks,
                                       importIp: Import)
    requires Cached(Grow(cs), cache, kept, callstacks, importIp)
    requires Uses(kept + [sample], sample.callstack)
    requires path == CachedPath(kept + [sample], sample.callstack, callstacks, importIp)
    requires id == ExtendAll(Grow(cs), 0, path).1
    requires sample.callstack in cache ==> id == cache[sample.callstack]
    ensures Cached(Grow(cs + [Contribution(path + [target], sample.value)]), cache[sample.callstack := id],
                   kept + [sample], callstacks, importIp)
  {
    UsesSnoc(kept, sample, sample.callstack);
    GrowKeeps(cs, path, target, sample.value);
    CachedSnoc(Grow(cs), Grow(cs + [Contribution(path + [target], sample.value)]), cache, kept, sample, id,
               callstacks, importIp);
  }
}
