/** The call graph that samples are added to, one after another. */
module ExportGraphs {
  import opened Outcome
  import opened CallGraphs
  import opened CallGraphSamples

  class ExportGraph {
    var nodes: seq<Node>
    ghost var contributions: seq<Contribution>
    ghost var excess: nat

    /** The nodes are those counted from scratch, but for the excess at the root. */
    ghost predicate Valid()
      reads this
    {
      nodes == Recount(contributions, excess)
    }

    constructor ()
      ensures Valid() && contributions == [] && excess == 0
    {
      nodes := [];
      new;
      Reset();
    }

    /** Empties the graph down to its root. */
    method Reset()
      modifies this
      ensures Valid() && contributions == [] && excess == 0
    {
      nodes := [];
      var root := AddNode(Node(0, NO_TARGET, 0, [], 0, 0));
      contributions, excess := [], 0;
      assert nodes == Recount(contributions, excess);
    }

    method AddNode(node: Node) returns (id: nat)
      modifies `nodes
      ensures id == |old(nodes)| && nodes == old(nodes) + [node.(id := id)]
    {
      id := |nodes|;
      nodes := nodes + [node.(id := id)];
    }

    /** Adds the value to every node above `parentId`; above the root is the root itself. */
    method Charge(parentId: nat, value: nat)
      requires Tree(Shape(nodes)) && parentId < |nodes|
      modifies `nodes
      ensures old(nodes[parentId]).parent < |old(nodes)|
      ensures Charged(old(nodes), nodes, old(nodes[parentId]).parent, value)
    {
      ghost var before, ps := nodes, Shape(nodes);
      assert parentId != 0 ==> ParentOk(ps, parentId);
      assert ps[parentId].parent == nodes[parentId].parent;
      var id: nat := nodes[parentId].parent;
      ghost var start := id;
      while true
        invariant |nodes| == |before| && id < |before|
        invariant forall i: nat :: i < |before| && OnPath(ps, i, id) ==> OnPath(ps, i, start)
        invariant forall i: nat :: i < |before| ==>
                    nodes[i] == before[i].(total := before[i].total +
                      if OnPath(ps, i, start) && !OnPath(ps, i, id) then value else 0)
        decreases id
      {
        nodes := nodes[id := nodes[id].(total := nodes[id].total + value)];
        if id == 0 {
          break;
        }
        assert ParentOk(ps, id) && ps[id].parent == nodes[id].parent;
        assert forall i: nat :: i < |before| && i != id ==> (OnPath(ps, i, id) <==> OnPath(ps, i, nodes[id].parent));
        id := nodes[id].parent;
      }
    }

    /** Adds the value to a node and returns its child for the target, adding one if there is none. */
    method Merge(parentId: nat, target: Target, value: nat) returns (id: nat)
      requires Tree(Shape(nodes)) && parentId < |nodes|
      modifies `nodes
      ensures Merged(old(nodes), nodes, parentId, target, value, id)
    {
      ghost var ps := Shape(nodes);
      assert ChildrenOk(ps, parentId);
      nodes := nodes[parentId := nodes[parentId].(total := nodes[parentId].total + value)];
      assert Shape(nodes) == ps;
      var children := nodes[parentId].children;
      assert children == ps[parentId].children;
      for c := 0 to |children|
        invariant nodes == old(nodes)[parentId := old(nodes)[parentId].(total := old(nodes)[parentId].total + value)]
        invariant FindChild(ps, children, target) == FindChild(ps, children[c..], target)
      {
        assert ps[children[c]].target == nodes[children[c]].target;
        if nodes[children[c]].target == target {
          return children[c];
        }
      }
      id := AddNode(Node(0, target, parentId, [], 0, 0));
      nodes := nodes[parentId := nodes[parentId].(children := nodes[parentId].children + [id])];
      assert Shape(nodes) == Grown(ps, parentId, target);
    }

    /** A sample's frames are merged along `path` down to the node `id`, its own address is not. */
    ghost predicate Reached(path: seq<Target>, value: nat, id: nat)
      reads this
    {
      var (ps, at) := ExtendAll(Grow(contributions), 0, path);
      id == at && nodes == Counted(contributions, excess, ps, path, value)
    }

    /** Charges the nodes above the one a cached callstack ends at. */
    method ChargeCallstack(id: nat, value: nat)
      requires Valid() && id < |Grow(contributions)|
      modifies `nodes, `excess
      ensures Reached(PathOf(Grow(contributions), id), value, id)
      ensures excess == old(excess) + if id == 0 then value else 0
    {
      ghost var ps := Grow(contributions);
      CountedShape(contributions, excess, ps, [], 0);
      assert nodes[id].parent == ps[id].parent;
      Charge(id, value);
      ChargedIsCounted(contributions, excess, ps, nodes, id, value);
      excess := excess + if id == 0 then value else 0;
      ExtendAllPresent(ps, id);
    }

    /** Imports and merges frames, the outermost of which is the last. */
    method MergeCallstack(frames: seq<nat>, time: nat, value: nat, importIp: Import) returns (id: nat)
      requires Valid()
      modifies `nodes
      ensures Reached(PathDown(frames, time, importIp), value, id)
    {
      var rest := frames;
      id := 0;
      while rest != []
        invariant |rest| <= |frames| && rest == frames[..|rest|]
        invariant Reached(PathDown(frames[|rest|..], time, importIp), value, id)
      {
        var ip := rest[|rest| - 1];
        ghost var path := PathDown(frames[|rest|..], time, importIp);
        rest := rest[..|rest| - 1];
        assert frames[|rest|..][1..] == frames[|rest| + 1..];
        id := MergeFrame(path, value, id, importIp(time, ip));
      }
      assert frames[0..] == frames;
    }

    method MergeFrame(ghost path: seq<Target>, value: nat, at: nat, target: Target) returns (id: nat)
      requires Reached(path, value, at)
      modifies `nodes
      ensures Reached(path + [target], value, id)
    {
      ghost var ps := ExtendAll(Grow(contributions), 0, path).0;
      ghost var before := nodes;
      CountedShape(contributions, excess, ps, path, value);
      ExtendAllPath(Grow(contributions), 0, path);
      PathsArePresent(contributions);
      forall c | c in contributions
        ensures Present(ps, c.path)
      {
        ExtendAllPresence(Grow(contributions), path, c.path);
      }
      id := Merge(at, target, value);
      MergedIsCounted(contributions, excess, ps, path, value, at, target, nodes, id);
      ExtendAllSnoc(Grow(contributions), 0, path, target);
    }

    /** Merges the sample's own address, which carries the exclusive value and the rest of the total. */
    method MergeTop(ghost path: seq<Target>, value: nat, at: nat, target: Target)
      requires Reached(path, value, at)
      modifies this
      ensures Valid() && excess == old(excess)
      ensures contributions == old(contributions) + [Contribution(path + [target], value)]
    {
      var id := MergeFrame(path, value, at, target);
      ghost var cs := contributions + [Contribution(path + [target], value)];
      ReachedIsLanded(contributions, excess, path + [target], value, id, nodes);
      nodes := nodes[id := Landed(nodes[id], value)];
      contributions := cs;
    }

    /** Adds the samples of a kind; a callstack is merged when first seen and charged after that. */
    method AddSamples(samples: seq<Sample>, kind: nat, callstacks: Callstacks, importIp: Import)
      requires Valid()
      modifies this
      ensures Valid()
      ensures var kept := Kept(samples, kind);
        && contributions == old(contributions) + Contributions(kept, callstacks, importIp)
        && excess == old(excess) + Excess(kept, callstacks)
    {
      var callstackToNode: map<nat, nat> := map[];
      ghost var kept: seq<Sample> := [];
      assert Ready(callstackToNode, kept, callstacks, importIp);
      for n := 0 to |samples|
        invariant kept == Kept(samples[..n], kind) && Ready(callstackToNode, kept, callstacks, importIp)
        invariant contributions == old(contributions) + Contributions(kept, callstacks, importIp)
        invariant excess == old(excess) + Excess(kept, callstacks)
      {
        KeptNext(samples, n, kind);
        if samples[n].kind != kind {
          continue;
        }
        callstackToNode := AddSample(samples[n], callstackToNode, kept, callstacks, importIp);
        ContributionsNext(old(contributions), kept, samples[n], callstacks, importIp);
        kept := kept + [samples[n]];
      }
      assert samples[..|samples|] == samples;
    }

    /** The graph is right, and the cache knows the callstacks of the samples so far. */
    ghost predicate Ready(cache: map<nat, nat>, kept: seq<Sample>, callstacks: Callstacks, importIp: Import)
      reads this
    {
      Valid() && Cached(Grow(contributions), cache, kept, callstacks, importIp)
    }

    method AddSample(sample: Sample, cache: map<nat, nat>, ghost kept: seq<Sample>,
                     callstacks: Callstacks, importIp: Import) returns (callstackToNode: map<nat, nat>)
      requires Ready(cache, kept, callstacks, importIp)
      modifies this
      ensures Ready(callstackToNode, kept + [sample], callstacks, importIp)
      ensures contributions == old(contributions) + [LastContribution(kept + [sample], callstacks, importIp)]
      ensures excess == old(excess) + ExcessOf(kept, sample, callstacks)
    {
      ghost var cs := contributions;
      UsesSnoc(kept, sample, sample.callstack);
      ghost var path := CachedPath(kept + [sample], sample.callstack, callstacks, importIp);
      var id: nat;
      if sample.callstack in cache {
        id := cache[sample.callstack];
        assert EndsAt(Grow(cs), id, path);
        ChargeCallstack(id, sample.value);
      } else {
        id := MergeCallstack(FramesOf(callstacks, sample.callstack), sample.time, sample.value, importIp);
      }
      callstackToNode := cache[sample.callstack := id];
      assert Reached(path, sample.value, id);
      var target := importIp(sample.time, sample.ip);
      MergeTop(path, sample.value, id, target);
      CachedStays(cs, path, target, cache, kept, sample, id, callstacks, importIp);
    }
  }
}
