/** What the totals of a counted graph add up to. */
module CallGraphTotals {
  import opened CallGraphs
  import opened CallGraphSamples

  /** Sum of the samples going through some children of a node. */
  function ThroughChildren(cs: seq<Contribution>, ps: seq<Place>, children: seq<nat>): nat
    requires Tree(ps) && forall k :: 0 <= k < |children| ==> children[k] < |ps|
  {
    if children == [] then 0
    else Through(cs, PathOf(ps, children[0])) + ThroughChildren(cs, ps, children[1..])
  }

  /** Sum of the totals of some nodes. */
  function Totals(nodes: seq<Node>, ids: seq<nat>): nat
    requires forall k :: 0 <= k < |ids| ==> ids[k] < |nodes|
  {
    if ids == [] then 0 else nodes[ids[0]].total + Totals(nodes, ids[1..])
  }

  /** What a sample gives to some nodes: its value for each whose path starts its path. */
  function Share(ps: seq<Place>, children: seq<nat>, c: Contribution): nat
    requires Tree(ps) && forall k :: 0 <= k < |children| ==> children[k] < |ps|
  {
    if children == [] then 0
    else (if PathOf(ps, children[0]) <= c.path then c.value else 0) + Share(ps, children[1..], c)
  }

  lemma {:induction false} ThroughChildrenAdds(cs: seq<Contribution>, last: Contribution, ps: seq<Place>,
                                               children: seq<nat>)
    requires Tree(ps) && forall k :: 0 <= k < |children| ==> children[k] < |ps|
    ensures ThroughChildren(cs + [last], ps, children)
         == ThroughChildren(cs, ps, children) + Share(ps, children, last)
  {
    assert (cs + [last])[..|cs|] == cs;
    if children != [] {
      ThroughChildrenAdds(cs, last, ps, children[1..]);
    }
  }

  /** Siblings have different targets, so at most the one at `at` starts the path. */
  lemma {:induction false} OneShare(ps: seq<Place>, children: seq<nat>, c: Contribution, at: int)
    requires Tree(ps) && forall k :: 0 <= k < |children| ==> children[k] < |ps|
    requires forall k :: 0 <= k < |children| ==> (PathOf(ps, children[k]) <= c.path <==> k == at)
    ensures Share(ps, children, c) == if 0 <= at < |children| then c.value else 0
  {
    if children != [] {
      OneShare(ps, children[1..], c, at - 1);
    }
  }

  /** A sample through a node either ends there or goes through exactly one of its children. */
  lemma {:induction false} SplitsAtNode(ps: seq<Place>, i: nat, c: Contribution)
    requires Tree(ps) && i < |ps| && Present(ps, c.path)
    ensures ChildrenOk(ps, i)
    ensures Share(ps, ps[i].children, c) == if PathOf(ps, i) < c.path then c.value else 0
  {
    var id :| 0 <= id < |ps| && PathOf(ps, id) == c.path;
    var p, path, children := PathOf(ps, i), c.path, ps[i].children;
    assert ChildrenOk(ps, i);
    forall k | 0 <= k < |children|
      ensures PathOf(ps, children[k]) == p + [ps[children[k]].target]
    {
      assert ParentOk(ps, children[k]);
    }
    if p < path {
      PrefixIsPresent(ps, id, path[..|p| + 1]);
      var j :| 0 <= j < |ps| && PathOf(ps, j) == path[..|p| + 1];
      assert PathOf(ps, j) == p + [path[|p|]];
      LongerPathIsChild(ps, i, path[|p|], j);
      var at :| 0 <= at < |children| && children[at] == j;
      OneShare(ps, children, c, at);
    } else {
      OneShare(ps, children, c, -1);
    }
  }

  /** Counted from the samples, a node's share is its own plus its children's. */
  lemma {:induction false} ThroughSplits(cs: seq<Contribution>, ps: seq<Place>, i: nat)
    requires Tree(ps) && i < |ps|
    requires forall c :: c in cs ==> Present(ps, c.path)
    ensures ChildrenOk(ps, i)
    ensures Through(cs, PathOf(ps, i)) == At(cs, PathOf(ps, i)) + ThroughChildren(cs, ps, ps[i].children)
  {
    assert ChildrenOk(ps, i);
    if cs == [] {
      ThroughNothing(ps, ps[i].children);
    } else {
      var before, last := cs[..|cs| - 1], cs[|cs| - 1];
      ThroughSplits(before, ps, i);
      ThroughSplitsSnoc(before, last, ps, i);
      assert before + [last] == cs;
    }
  }

  lemma {:induction false} ThroughSplitsSnoc(cs: seq<Contribution>, last: Contribution, ps: seq<Place>, i: nat)
    requires Tree(ps) && i < |ps| && Present(ps, last.path) && ChildrenOk(ps, i)
    requires Through(cs, PathOf(ps, i)) == At(cs, PathOf(ps, i)) + ThroughChildren(cs, ps, ps[i].children)
    ensures Through(cs + [last], PathOf(ps, i))
         == At(cs + [last], PathOf(ps, i)) + ThroughChildren(cs + [last], ps, ps[i].children)
  {
    assert (cs + [last])[..|cs|] == cs;
    SplitsAtNode(ps, i, last);
    ThroughChildrenAdds(cs, last, ps, ps[i].children);
  }

  lemma {:induction false} ThroughNothing(ps: seq<Place>, children: seq<nat>)
    requires Tree(ps) && forall k :: 0 <= k < |children| ==> children[k] < |ps|
    ensures ThroughChildren([], ps, children) == 0
  {
    if children != [] {
      ThroughNothing(ps, children[1..]);
    }
  }

  lemma {:induction false} TotalsAreThrough(cs: seq<Contribution>, excess: nat, children: seq<nat>)
    requires forall k :: 0 <= k < |children| ==> 0 < children[k] < |Grow(cs)|
    ensures Totals(Recount(cs, excess), children) == ThroughChildren(cs, Grow(cs), children)
  {
    if children != [] {
      assert Recount(cs, excess)[children[0]] == CountedNode(cs, excess, Grow(cs), [], 0, children[0]);
      TotalsAreThrough(cs, excess, children[1..]);
    }
  }

  /** Every node's total is its exclusive value plus its children's totals, the root's also the excess. */
  lemma {:induction false} TotalIsOwnPlusChildren(cs: seq<Contribution>, excess: nat, i: nat)
    requires i < |Recount(cs, excess)|
    ensures var nodes := Recount(cs, excess);
      && (forall k :: 0 <= k < |nodes[i].children| ==> i < nodes[i].children[k] < |nodes|)
      && nodes[i].total == nodes[i].exclusive + Totals(nodes, nodes[i].children) + (if i == 0 then excess else 0)
  {
    var ps := Grow(cs);
    PathsArePresent(cs);
    ThroughSplits(cs, ps, i);
    TotalsAreThrough(cs, excess, ps[i].children);
  }

  /** The root's total is the sum of all sample values, plus the excess. */
  lemma {:induction false} RootTotalIsAllValues(cs: seq<Contribution>, excess: nat)
    ensures Recount(cs, excess)[0].total == Values(cs) + excess
  {
    ThroughRoot(cs);
  }

  lemma {:induction false} ThroughRoot(cs: seq<Contribution>)
    ensures Through(cs, []) == Values(cs)
  {
    if cs != [] {
      ThroughRoot(cs[..|cs| - 1]);
    }
  }

  predicate ListedByParent(nodes: seq<Node>, i: nat)
    requires i < |nodes|
  {
    nodes[i].parent < i && i in nodes[nodes[i].parent].children
  }

  predicate Siblings(nodes: seq<Node>, i: nat, j: nat)
    requires i < |nodes| && j < |nodes|
  {
    i != j && i != 0 && j != 0 && nodes[i].parent == nodes[j].parent
  }

  /**
   In every graph ids equal positions, parents come before their children and list them, siblings
   have distinct targets, and only the root is its own parent.
   */
  lemma {:induction false} RecountIsTree(cs: seq<Contribution>, excess: nat)
    ensures var nodes := Recount(cs, excess);
      && nodes != [] && nodes[0].parent == 0 && nodes[0].target == NO_TARGET
      && (forall i :: 0 <= i < |nodes| ==> nodes[i].id == i)
      && (forall i :: 0 < i < |nodes| ==> ListedByParent(nodes, i))
      && (forall i, j :: 0 <= i < |nodes| && 0 <= j < |nodes| && Siblings(nodes, i, j) ==>
            nodes[i].target != nodes[j].target)
  {
    var nodes := Recount(cs, excess);
    RootIsUntargeted(cs);
    forall i | 0 < i < |nodes|
      ensures ListedByParent(nodes, i)
    {
      assert ParentOk(Grow(cs), i);
    }
    forall i, j | 0 <= i < |nodes| && 0 <= j < |nodes| && Siblings(nodes, i, j)
      ensures nodes[i].target != nodes[j].target
    {
      SiblingsDiffer(Grow(cs), i, j);
    }
  }

  lemma {:induction false} SiblingsDiffer(ps: seq<Place>, i: nat, j: nat)
    requires Tree(ps) && 0 < i < |ps| && 0 < j < |ps| && i != j && ps[i].parent == ps[j].parent
    ensures ps[i].target != ps[j].target
  {
    assert ParentOk(ps, i) && ParentOk(ps, j);
    assert ChildrenOk(ps, ps[i].parent);
  }

  lemma {:induction false} RootIsUntargeted(cs: seq<Contribution>)
    ensures Grow(cs)[0].target == NO_TARGET
  {
    if cs != [] {
      RootIsUntargeted(cs[..|cs| - 1]);
      ExtendAllKeepsTargets(Grow(cs[..|cs| - 1]), 0, cs[|cs| - 1].path, 0);
    }
  }

  lemma {:induction false} ExtendAllKeepsTargets(ps: seq<Place>, at: nat, path: seq<Target>, i: nat)
    requires Tree(ps) && at < |ps| && i < |ps|
    ensures ExtendAll(ps, at, path).0[i].target == ps[i].target
    decreases path
  {
    if path != [] {
      var (qs, id) := Extend(ps, at, path[0]);
      ExtendAllKeepsTargets(qs, id, path[1..], i);
    }
  }

  /** The cached counting meets the re-merged one exactly when the root holds no excess. */
  lemma {:induction false} RemergedIffNoExcess(cs: seq<Contribution>, excess: nat)
    ensures Recount(cs, excess) == Recount(cs, 0) <==> excess == 0
  {
    RootTotalIsAllValues(cs, excess);
    RootTotalIsAllValues(cs, 0);
  }

  /**
   Starting from an empty graph, and when the frames of repeated callstacks import as they did first, the
   cache gives the graph of re-merging every frame of every sample exactly when no repeated callstack
   without frames adds anything.  Without that it never does.
   */
  lemma {:induction false} CacheIsExact(kept: seq<Sample>, callstacks: Callstacks, importIp: Import)
    ensures var same := Recount(Contributions(kept, callstacks, importIp), Excess(kept, callstacks))
                     == Recount(Remerged(kept, callstacks, importIp), 0);
      && (AllAlike(kept, callstacks, importIp) ==> (same <==> NoneTwice(kept, callstacks)))
      && (same ==> NoneTwice(kept, callstacks))
  {
    var cs, ds := Contributions(kept, callstacks, importIp), Remerged(kept, callstacks, importIp);
    CachingIsRemergingIff(kept, callstacks, importIp);
    NoExcessIff(kept, callstacks);
    SameValues(kept, callstacks, importIp);
    RootTotalIsAllValues(cs, Excess(kept, callstacks));
    RootTotalIsAllValues(ds, 0);
  }

  /** A graph tells how much ends at every path. */
  lemma {:induction false} SameGraphSameCounts(cs: seq<Contribution>, ds: seq<Contribution>, e: nat, f: nat,
                                               path: seq<Target>)
    requires Recount(cs, e) == Recount(ds, f)
    ensures At(cs, path) == At(ds, path)
  {
    CountedShape(cs, e, Grow(cs), [], 0);
    CountedShape(ds, f, Grow(ds), [], 0);
    var ps := Grow(cs);
    PathsArePresent(cs);
    PathsArePresent(ds);
    if Present(ps, path) {
      var i :| 0 <= i < |ps| && PathOf(ps, i) == path;
      assert Recount(cs, e)[i].exclusive == At(cs, path) && Recount(ds, f)[i].exclusive == At(ds, path);
    } else {
      AbsentIsUnused(cs, ps, path);
      AbsentIsUnused(ds, ps, path);
    }
  }

  /** What two samples of one callstack contribute, with the cache and without. */
  lemma {:induction false} TwoSamples(x: Sample, y: Sample, callstacks: Callstacks, importIp: Import)
    requires x.callstack == y.callstack
    ensures var path := PathDown(FramesOf(callstacks, x.callstack), x.time, importIp);
      Contributions([x] + [y], callstacks, importIp)
      == [Anew(x, callstacks, importIp)] + [Contribution(path + [importIp(y.time, y.ip)], y.value)]
    ensures Remerged([x] + [y], callstacks, importIp)
         == [Anew(x, callstacks, importIp)] + [Anew(y, callstacks, importIp)]
  {
    assert [] + [x] == [x];
    UsesSnoc([], x, x.callstack);
    UsesSnoc([x], y, y.callstack);
    ContributionsSnoc([], x, callstacks, importIp);
    ContributionsSnoc([x], y, callstacks, importIp);
    assert LastContribution([x], callstacks, importIp) == Anew(x, callstacks, importIp);
    assert Contributions([x], callstacks, importIp) == [Anew(x, callstacks, importIp)];
    RemergedSnoc([], x, callstacks, importIp);
    RemergedSnoc([x], y, callstacks, importIp);
  }

  lemma {:induction false} RemergedSnoc(kept: seq<Sample>, sample: Sample, callstacks: Callstacks, importIp: Import)
    ensures Remerged(kept + [sample], callstacks, importIp)
         == Remerged(kept, callstacks, importIp) + [Anew(sample, callstacks, importIp)]
  {
    assert (kept + [sample])[..|kept|] == kept;
  }

  const UNKNOWN := Target(0, 0, 0)

  /** Address 9 is mapped at time 5; all others are known from the start. */
  const LATE: Import := (time: nat, ip: nat) => if ip == 9 && time < 5 then UNKNOWN else Target(ip, 1, 0)

  const LATE_SAMPLES := [Sample(4, 0, 7, 1, 10), Sample(6, 0, 7, 1, 10)]

  const LATE_CALLSTACKS: Callstacks := map[1 := [9]]

  lemma {:induction false} LateIsNotAlike()
    ensures !AllAlike(LATE_SAMPLES, LATE_CALLSTACKS, LATE) && NoneTwice(LATE_SAMPLES, LATE_CALLSTACKS)
  {
    var kept, frames := LATE_SAMPLES, FramesOf(LATE_CALLSTACKS, 1);
    var before := kept[..1];
    assert before == [kept[0]] && before[..0] == [];
    UsesSnoc([], kept[0], 1);
    assert [] + [kept[0]] == before;
    assert LATE(4, frames[0]) != LATE(6, frames[0]);
    assert !ImportsAlike(kept, 1, LATE_CALLSTACKS, LATE);
  }

  /**
   A callstack first seen before its mapping and again after it: the cached path keeps the unknown target,
   and the graph is not the re-merged one.
   */
  lemma {:induction false} LateMappingIsMissed()
    ensures !AllAlike(LATE_SAMPLES, LATE_CALLSTACKS, LATE) && NoneTwice(LATE_SAMPLES, LATE_CALLSTACKS)
    ensures Recount(Contributions(LATE_SAMPLES, LATE_CALLSTACKS, LATE), Excess(LATE_SAMPLES, LATE_CALLSTACKS))
         != Recount(Remerged(LATE_SAMPLES, LATE_CALLSTACKS, LATE), 0)
  {
    LateIsNotAlike();
    var (x, y, frames) := (LATE_SAMPLES[0], LATE_SAMPLES[1], FramesOf(LATE_CALLSTACKS, 1));
    var (stale, anew) := ([UNKNOWN] + [Target(7, 1, 0)], [Target(9, 1, 0)] + [Target(7, 1, 0)]);
    assert frames[1..] == [];
    assert PathDown(frames, 4, LATE) == [UNKNOWN] && PathDown(frames, 6, LATE) == [Target(9, 1, 0)];
    TwoSamples(x, y, LATE_CALLSTACKS, LATE);
    assert [x] + [y] == LATE_SAMPLES;
    var cs, ds := Contributions(LATE_SAMPLES, LATE_CALLSTACKS, LATE), Remerged(LATE_SAMPLES, LATE_CALLSTACKS, LATE);
    TwoCounts(stale, stale, 10, stale);
    TwoCounts(stale, anew, 10, stale);
    assert stale[0] != anew[0];
    if Recount(cs, Excess(LATE_SAMPLES, LATE_CALLSTACKS)) == Recount(ds, 0) {
      SameGraphSameCounts(cs, ds, Excess(LATE_SAMPLES, LATE_CALLSTACKS), 0, stale);
    }
  }

  lemma {:induction false} TwoCounts(p: seq<Target>, q: seq<Target>, value: nat, path: seq<Target>)
    ensures At([Contribution(p, value)] + [Contribution(q, value)], path)
         == (if path == p then value else 0) + if path == q then value else 0
  {
    var first, both := [Contribution(p, value)], [Contribution(p, value)] + [Contribution(q, value)];
    assert both[..1] == first && first[..0] == [];
    assert At(first, path) == if path == p then value else 0;
    assert both[|both| - 1] == Contribution(q, value);
  }

  /** Two samples with the same empty callstack: the second value is in the root's total twice. */
  lemma {:induction false} EmptyCallstackCountsTwice(sample: Sample, callstacks: Callstacks, importIp: Import)
    requires FramesOf(callstacks, sample.callstack) == []
    ensures var kept := [sample, sample];
      Recount(Contributions(kept, callstacks, importIp), Excess(kept, callstacks))[0].total == 3 * sample.value
  {
    var kept := [sample, sample];
    TwiceAlike(sample, callstacks, importIp, kept);
    var cs := Contributions(kept, callstacks, importIp);
    RootTotalIsAllValues(cs, Excess(kept, callstacks));
    TwoValues(cs);
  }

  lemma {:induction false} TwoValues(cs: seq<Contribution>)
    requires |cs| == 2
    ensures Values(cs) == cs[0].value + cs[1].value
  {
    var first := cs[..1];
    assert Values(cs) == Values(first) + cs[1].value;
    assert first[..0] == [];
    assert Values(first) == first[0].value;
  }

  lemma {:induction false} TwiceAlike(sample: Sample, callstacks: Callstacks, importIp: Import, kept: seq<Sample>)
    requires FramesOf(callstacks, sample.callstack) == [] && kept == [sample, sample]
    ensures Excess(kept, callstacks) == sample.value
    ensures var cs := Contributions(kept, callstacks, importIp);
      |cs| == 2 && cs[0].value == sample.value && cs[1].value == sample.value
  {
    assert kept[..1] == [sample] && [sample][..0] == [];
    assert Uses([sample], sample.callstack) by {
      assert [sample][0].callstack == sample.callstack;
    }
    ContributionsSnoc([], sample, callstacks, importIp);
    ContributionsSnoc([sample], sample, callstacks, importIp);
    assert [] + [sample] == [sample] && [sample] + [sample] == kept;
  }
}
