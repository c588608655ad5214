/** The call graph as a trie of targets: its shape, and the totals counted from scratch. */
module CallGraphs {
  import opened Outcome

  /** What an instruction pointer is imported as. */
  datatype Target = Target(address: nat, resolvable: nat, method_: nat)

  datatype Node = Node(id: nat, target: Target, parent: nat, children: seq<nat>, exclusive: nat, total: nat)

  const NO_TARGET := Target(0, 0, 0)

  // --- the shape of the trie ---------------------------------------------------------------------

  datatype Place = Place(target: Target, parent: nat, children: seq<nat>)

  const ROOT := Place(NO_TARGET, 0, [])

  /** Ids grow downwards, parents and children name each other, and siblings have different targets. */
  predicate Tree(ps: seq<Place>) {
    && ps != [] && ps[0].parent == 0
    && (forall i :: 0 < i < |ps| ==> ParentOk(ps, i))
    && (forall i :: 0 <= i < |ps| ==> ChildrenOk(ps, i))
  }

  predicate ParentOk(ps: seq<Place>, i: nat)
    requires i < |ps|
  {
    ps[i].parent < i && i in ps[ps[i].parent].children
  }

  predicate ChildrenOk(ps: seq<Place>, i: nat)
    requires i < |ps|
  {
    var children := ps[i].children;
    && (forall k :: 0 <= k < |children| ==> i < children[k] < |ps| && ps[children[k]].parent == i)
    && (forall k, l :: 0 <= k < l < |children| ==>
          children[k] != children[l] && ps[children[k]].target != ps[children[l]].target)
  }

  /** The targets from below the root down to a node. */
  function PathOf(ps: seq<Place>, i: nat): (path: seq<Target>)
    requires Tree(ps) && i < |ps|
    ensures path == [] <==> i == 0
    decreases i
  {
    if i == 0 then []
    else
      assert ParentOk(ps, i);
      PathOf(ps, ps[i].parent) + [ps[i].target]
  }

  /** The first of some children with the target. */
  function FindChild(ps: seq<Place>, children: seq<nat>, target: Target): (r: Option<nat>)
    requires forall k :: 0 <= k < |children| ==> children[k] < |ps|
    ensures r.Some? ==> r.value in children && r.value < |ps| && ps[r.value].target == target
    ensures r.None? ==> forall k :: 0 <= k < |children| ==> ps[children[k]].target != target
  {
    if children == [] then None
    else if ps[children[0]].target == target then Some(children[0])
    else FindChild(ps, children[1..], target)
  }

  /** The shape with one more child, numbered after all the others. */
  function Grown(ps: seq<Place>, at: nat, target: Target): seq<Place>
    requires at < |ps|
  {
    ps[at := ps[at].(children := ps[at].children + [|ps|])] + [Place(target, at, [])]
  }

  /** The child for a target, added at the end if there is none. */
  function Extend(ps: seq<Place>, at: nat, target: Target): (r: (seq<Place>, nat))
    requires Tree(ps) && at < |ps|
    ensures Tree(r.0) && r.1 < |r.0| && |ps| <= |r.0|
  {
    assert ChildrenOk(ps, at);
    match FindChild(ps, ps[at].children, target)
    case Some(id) => (ps, id)
    case None =>
      GrownIsTree(ps, at, target);
      (Grown(ps, at, target), |ps|)
  }

  lemma {:induction false} GrownIsTree(ps: seq<Place>, at: nat, target: Target)
    requires Tree(ps) && at < |ps|
    requires forall k :: 0 <= k < |ps[at].children| ==>
                           ps[at].children[k] < |ps| && ps[ps[at].children[k]].target != target
    ensures Tree(Grown(ps, at, target))
  {
    var qs := Grown(ps, at, target);
    forall i | 0 <= i < |qs|
      ensures ChildrenOk(qs, i)
    {
      if i < |ps| {
        assert ChildrenOk(ps, i);
      }
    }
    forall i | 0 < i < |qs|
      ensures ParentOk(qs, i)
    {
      if i == |ps| {
        assert qs[at].children[|ps[at].children|] == i;
      } else {
        assert ParentOk(ps, i);
      }
    }
  }

  /** The node reached has the path one target longer; no other node's path changes. */
  lemma {:induction false} ExtendPath(ps: seq<Place>, at: nat, target: Target)
    requires Tree(ps) && at < |ps|
    ensures var (qs, id) := Extend(ps, at, target);
      && (forall i :: 0 <= i < |ps| ==> PathOf(qs, i) == PathOf(ps, i))
      && PathOf(qs, id) == PathOf(ps, at) + [target]
      && |qs| <= |ps| + 1 && (|qs| > |ps| ==> id == |ps|)
  {
    var (qs, id) := Extend(ps, at, target);
    assert ChildrenOk(ps, at);
    KeepsPaths(ps, qs, |ps|);
  }

  /** Nodes that keep target and parent keep their path. */
  lemma {:induction false} KeepsPaths(ps: seq<Place>, qs: seq<Place>, n: nat)
    requires Tree(ps) && Tree(qs) && n <= |ps| <= |qs|
    requires forall i :: 0 <= i < |ps| ==> qs[i].target == ps[i].target && qs[i].parent == ps[i].parent
    ensures forall i :: 0 <= i < n ==> PathOf(qs, i) == PathOf(ps, i)
  {
    if n > 0 {
      KeepsPaths(ps, qs, n - 1);
      assert n > 1 ==> ParentOk(ps, n - 1);
    }
  }

  /** A path names at most one node. */
  lemma {:induction false} PathIsInjective(ps: seq<Place>, i: nat, j: nat)
    requires Tree(ps) && i < |ps| && j < |ps| && PathOf(ps, i) == PathOf(ps, j)
    ensures i == j
    decreases i
  {
    if i != 0 {
      assert ParentOk(ps, i) && ParentOk(ps, j);
      var p, q := PathOf(ps, ps[i].parent), PathOf(ps, ps[j].parent);
      assert p == PathOf(ps, i)[..|p|] && q == PathOf(ps, j)[..|q|];
      assert ps[i].target == PathOf(ps, i)[|p|];
      PathIsInjective(ps, ps[i].parent, ps[j].parent);
      assert ChildrenOk(ps, ps[i].parent);
    }
  }

  /** A node whose path is one longer than another's is its child. */
  lemma {:induction false} LongerPathIsChild(ps: seq<Place>, at: nat, target: Target, i: nat)
    requires Tree(ps) && at < |ps| && i < |ps| && PathOf(ps, i) == PathOf(ps, at) + [target]
    ensures i in ps[at].children && ps[i].target == target
  {
    assert ParentOk(ps, i);
    var p := PathOf(ps, ps[i].parent);
    assert p == PathOf(ps, i)[..|p|] == PathOf(ps, at);
    assert ps[i].target == PathOf(ps, i)[|p|] == target;
    PathIsInjective(ps, ps[i].parent, at);
  }

  /** `j` is `id` or above it. */
  predicate OnPath(ps: seq<Place>, j: nat, id: nat)
    requires Tree(ps) && id < |ps|
    ensures OnPath(ps, j, id) ==> j <= id
    decreases id
  {
    j == id || (id != 0 && (assert ParentOk(ps, id); OnPath(ps, j, ps[id].parent)))
  }

  lemma {:induction false} OnPathIsPrefix(ps: seq<Place>, j: nat, id: nat)
    requires Tree(ps) && j < |ps| && id < |ps|
    ensures OnPath(ps, j, id) <==> PathOf(ps, j) <= PathOf(ps, id)
    decreases id
  {
    if j != id && id != 0 {
      assert ParentOk(ps, id);
      OnPathIsPrefix(ps, j, ps[id].parent);
      var p, q := PathOf(ps, j), PathOf(ps, id);
      if p <= q && |p| == |q| {
        PathIsInjective(ps, j, id);
      }
      if p <= q && |p| < |q| {
        assert p <= q[..|q| - 1] == PathOf(ps, ps[id].parent);
      }
    }
  }

  // --- counting from scratch --------------------------------------------------------------------

  /** One sample: the targets of its frames, outermost first, then of its own address. */
  datatype Contribution = Contribution(path: seq<Target>, value: nat)

  /** Sum of the samples whose path goes through `path`. */
  function Through(cs: seq<Contribution>, path: seq<Target>): nat {
    if cs == [] then 0
    else
      var last := cs[|cs| - 1];
      Through(cs[..|cs| - 1], path) + (if path <= last.path then last.value else 0)
  }

  /** Sum of the samples that end at `path`. */
  function At(cs: seq<Contribution>, path: seq<Target>): nat {
    if cs == [] then 0
    else
      var last := cs[|cs| - 1];
      At(cs[..|cs| - 1], path) + (if path == last.path then last.value else 0)
  }

  function Values(cs: seq<Contribution>): nat {
    if cs == [] then 0 else Values(cs[..|cs| - 1]) + cs[|cs| - 1].value
  }

  /** The node reached by merging a whole path from a node. */
  function ExtendAll(ps: seq<Place>, at: nat, path: seq<Target>): (r: (seq<Place>, nat))
    requires Tree(ps) && at < |ps|
    ensures Tree(r.0) && r.1 < |r.0| && |ps| <= |r.0|
    decreases path
  {
    if path == [] then (ps, at)
    else
      var (qs, id) := Extend(ps, at, path[0]);
      ExtendAll(qs, id, path[1..])
  }

  /** The trie after re-merging every frame of every sample. */
  function Grow(cs: seq<Contribution>): (ps: seq<Place>)
    ensures Tree(ps)
  {
    if cs == [] then [ROOT] else ExtendAll(Grow(cs[..|cs| - 1]), 0, cs[|cs| - 1].path).0
  }

  /**
   Nodes over a shape whose totals are counted from the samples, with `value` more on the proper
   prefixes of `path` and `excess` more on the root.
   */
  function Counted(cs: seq<Contribution>, excess: nat, ps: seq<Place>, path: seq<Target>, value: nat): seq<Node>
    requires Tree(ps)
  {
    seq(|ps|, i requires 0 <= i < |ps| => CountedNode(cs, excess, ps, path, value, i))
  }

  function CountedNode(cs: seq<Contribution>, excess: nat, ps: seq<Place>, path: seq<Target>, value: nat, i: nat): Node
    requires Tree(ps) && i < |ps|
  {
    var p := PathOf(ps, i);
    Node(i, ps[i].target, ps[i].parent, ps[i].children, At(cs, p),
         Through(cs, p) + (if i == 0 then excess else 0) + (if p < path then value else 0))
  }

  /** The graph of some samples, counted from scratch; `excess` is what the root holds beyond them. */
  function Recount(cs: seq<Contribution>, excess: nat): seq<Node> {
    Counted(cs, excess, Grow(cs), [], 0)
  }

  // --- extending a path ---------------------------------------------------------------------------

  lemma {:induction false} ExtendAllPath(ps: seq<Place>, at: nat, path: seq<Target>)
    requires Tree(ps) && at < |ps|
    ensures var (qs, id) := ExtendAll(ps, at, path);
      && PathOf(qs, id) == PathOf(ps, at) + path
      && (forall i :: 0 <= i < |ps| ==> PathOf(qs, i) == PathOf(ps, i))
    decreases path
  {
    if path != [] {
      var (qs, id) := Extend(ps, at, path[0]);
      ExtendPath(ps, at, path[0]);
      ExtendAllPath(qs, id, path[1..]);
      SplitHead(PathOf(ps, at), path);
    }
  }

  lemma {:induction false} SplitHead(p: seq<Target>, path: seq<Target>)
    requires path != []
    ensures p + path == p + [path[0]] + path[1..]
  {
  }

  lemma {:induction false} ExtendAllSnoc(ps: seq<Place>, at: nat, path: seq<Target>, target: Target)
    requires Tree(ps) && at < |ps|
    ensures var (qs, id) := ExtendAll(ps, at, path);
      ExtendAll(ps, at, path + [target]) == Extend(qs, id, target)
    decreases path
  {
    if path == [] {
      assert ([] + [target])[1..] == [];
    } else {
      var (qs, id) := Extend(ps, at, path[0]);
      assert (path + [target])[1..] == path[1..] + [target];
      ExtendAllSnoc(qs, id, path[1..], target);
    }
  }

  /** Following a path that is already there changes nothing. */
  lemma {:induction false} ExtendAllPresent(ps: seq<Place>, id: nat)
    requires Tree(ps) && id < |ps|
    ensures ExtendAll(ps, 0, PathOf(ps, id)) == (ps, id)
    decreases id
  {
    if id != 0 {
      assert ParentOk(ps, id);
      var parent := ps[id].parent;
      ExtendAllPresent(ps, parent);
      ExtendAllSnoc(ps, 0, PathOf(ps, parent), ps[id].target);
      assert ChildrenOk(ps, parent);
    }
  }

  predicate Present(ps: seq<Place>, path: seq<Target>)
    requires Tree(ps)
  {
    exists i :: 0 <= i < |ps| && PathOf(ps, i) == path
  }

  /** Every prefix of a node's path has a node. */
  lemma {:induction false} PrefixIsPresent(ps: seq<Place>, id: nat, prefix: seq<Target>)
    requires Tree(ps) && id < |ps| && prefix <= PathOf(ps, id)
    ensures Present(ps, prefix)
    decreases id
  {
    if prefix != PathOf(ps, id) {
      assert ParentOk(ps, id);
      var p := PathOf(ps, ps[id].parent);
      assert |prefix| <= |p| && prefix <= PathOf(ps, id)[..|p|] == p;
      PrefixIsPresent(ps, ps[id].parent, prefix);
    }
  }

  /** Merging a path keeps the nodes there were and adds one for the path. */
  lemma {:induction false} ExtendAllPresence(ps: seq<Place>, path: seq<Target>, p: seq<Target>)
    requires Tree(ps) && (Present(ps, p) || p == path)
    ensures Present(ExtendAll(ps, 0, path).0, p)
  {
    ExtendAllPath(ps, 0, path);
    var (qs, id) := ExtendAll(ps, 0, path);
    var i := if p == path then id else var i :| 0 <= i < |ps| && PathOf(ps, i) == p; i;
    assert PathOf(qs, i) == p;
  }

  /** Every sample's path has a node. */
  lemma {:induction false} PathsArePresent(cs: seq<Contribution>)
    ensures forall c :: c in cs ==> Present(Grow(cs), c.path)
  {
    if cs != [] {
      var before, last := cs[..|cs| - 1], cs[|cs| - 1];
      PathsArePresent(before);
      forall c | c in cs
        ensures Present(Grow(cs), c.path)
      {
        assert c in before || c == last;
        ExtendAllPresence(Grow(before), last.path, c.path);
      }
    }
  }

  /** A path without a node was used by no sample. */
  lemma {:induction false} AbsentIsUnused(cs: seq<Contribution>, ps: seq<Place>, path: seq<Target>)
    requires Tree(ps) && !Present(ps, path)
    requires forall c :: c in cs ==> Present(ps, c.path)
    ensures Through(cs, path) == 0 && At(cs, path) == 0
  {
    if cs != [] {
      var last := cs[|cs| - 1];
      AbsentIsUnused(cs[..|cs| - 1], ps, path);
      var id :| 0 <= id < |ps| && PathOf(ps, id) == last.path;
      if path <= last.path {
        PrefixIsPresent(ps, id, path);
      }
    }
  }
}
