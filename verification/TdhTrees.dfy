/** The property trees that flat records stand for, and that the walk gives their leaves. */
module TdhTrees {
  import opened MachineInt
  import opened Outcome
  import opened Tdh

  /** A property with the index of its record; a struct has its members below it. */
  datatype Node =
    | Field(index: nat, property: Property)
    | Struct(index: nat, property: Property, members: seq<Node>)

  /** A range of records stands for a forest: one tree per record, a struct's members from the range it names. */
  predicate Represents(ps: seq<Property>, lo: nat, hi: nat, forest: seq<Node>)
    decreases forest
  {
    if lo >= hi then forest == []
    else forest != [] && RepresentsNode(ps, lo, forest[0]) && Represents(ps, lo + 1, hi, forest[1..])
  }

  predicate RepresentsNode(ps: seq<Property>, i: nat, n: Node)
    decreases n
  {
    && n.index == i < |ps| && n.property == ps[i]
    && match n
       case Field(_, p) => !p.isStruct
       case Struct(_, p, members) =>
         p.isStruct && Represents(ps, p.structStart, p.structStart + p.structCount, members)
  }

  /** How many structs are nested. */
  function Levels(forest: seq<Node>): nat
    decreases forest
  {
    if forest == [] then 0 else Greater(NodeLevels(forest[0]), Levels(forest[1..]))
  }

  function NodeLevels(n: Node): nat
    decreases n
  {
    match n
    case Field(_, _) => 0
    case Struct(_, _, members) => 1 + Levels(members)
  }

  function Greater(a: nat, b: nat): nat { if a >= b then a else b }

  /** The name of a property, or its index if it has none. */
  function OwnName(n: Node): (name: string)
    ensures name != ""
  {
    if n.property.name == "" then "field" + Decimal(n.index) else n.property.name
  }

  /** The names on the way to a leaf, with dots between them. */
  function Dotted(path: seq<string>): string {
    if path == [] then ""
    else if |path| == 1 then path[0]
    else Dotted(path[..|path| - 1]) + "." + path[|path| - 1]
  }

  /** The leaves of a forest from left to right, each named by the way to it. */
  function Leaves(forest: seq<Node>, path: seq<string>, is32Bit: bool): seq<Leaf>
    decreases forest
  {
    if forest == [] then [] else NodeLeaves(forest[0], path, is32Bit) + Leaves(forest[1..], path, is32Bit)
  }

  function NodeLeaves(n: Node, path: seq<string>, is32Bit: bool): seq<Leaf>
    decreases n
  {
    var way := path + [OwnName(n)];
    match n
    case Field(_, p) => [LeafOf(p, Dotted(way), is32Bit)]
    case Struct(_, _, members) => Leaves(members, way, is32Bit)
  }

  predicate Named(path: seq<string>) { forall k :: 0 <= k < |path| ==> path[k] != "" }

  lemma {:induction false} DottedNext(path: seq<string>, n: Node)
    requires Named(path)
    ensures QualifiedName(Dotted(path), n.property.name, n.index) == Dotted(path + [OwnName(n)])
    ensures Named(path + [OwnName(n)])
  {
    var way := path + [OwnName(n)];
    assert way[..|way| - 1] == path;
    if path != [] {
      DottedIsNamed(path);
    }
  }

  lemma {:induction false} DottedIsNamed(path: seq<string>)
    requires Named(path) && path != []
    ensures |Dotted(path)| > 0
  {
    assert path[0] != "";
  }

  // --- the walk -------------------------------------------------------------------------------

  /** Walking records that stand for a forest gives its leaves, and fails exactly when structs nest too deep. */
  lemma {:induction false} WalkGivesLeaves(ps: seq<Property>, lo: nat, hi: nat, forest: seq<Node>, path: seq<string>,
                                           is32Bit: bool, depth: nat)
    requires Represents(ps, lo, hi, forest) && Named(path) && depth <= MAX_STRUCT_DEPTH
    ensures Flatten(ps, lo, hi, Dotted(path), is32Bit, depth)
         == if depth + Levels(forest) <= MAX_STRUCT_DEPTH then Ok(Leaves(forest, path, is32Bit)) else Err(Rejected)
    decreases forest
  {
    if lo < hi {
      NodeGivesLeaves(ps, lo, forest[0], path, is32Bit, depth);
      WalkGivesLeaves(ps, lo + 1, hi, forest[1..], path, is32Bit, depth);
    }
  }

  lemma {:induction false} NodeGivesLeaves(ps: seq<Property>, i: nat, n: Node, path: seq<string>, is32Bit: bool,
                                           depth: nat)
    requires RepresentsNode(ps, i, n) && Named(path) && depth <= MAX_STRUCT_DEPTH
    ensures FlattenOne(ps, i, Dotted(path), is32Bit, depth)
         == if depth + NodeLevels(n) <= MAX_STRUCT_DEPTH then Ok(NodeLeaves(n, path, is32Bit)) else Err(Rejected)
    decreases n
  {
    DottedNext(path, n);
    if n.Struct? && depth < MAX_STRUCT_DEPTH {
      WalkGivesLeaves(ps, n.property.structStart, n.property.structStart + n.property.structCount, n.members,
                      path + [OwnName(n)], is32Bit, depth + 1);
    }
  }

  /** Whatever is walked without an error stands for a forest. */
  lemma {:induction false} WalkedIsForest(ps: seq<Property>, lo: nat, hi: nat, prefix: string, is32Bit: bool,
                                          depth: nat) returns (forest: seq<Node>)
    requires depth <= MAX_STRUCT_DEPTH && Flatten(ps, lo, hi, prefix, is32Bit, depth).Ok?
    ensures Represents(ps, lo, hi, forest) && depth + Levels(forest) <= MAX_STRUCT_DEPTH
    decreases MAX_STRUCT_DEPTH - depth, hi - lo
  {
    forest := [];
    if lo < hi {
      var first := WalkedIsNode(ps, lo, prefix, is32Bit, depth);
      var others := WalkedIsForest(ps, lo + 1, hi, prefix, is32Bit, depth);
      forest := [first] + others;
      assert forest[1..] == others;
    }
  }

  lemma {:induction false} WalkedIsNode(ps: seq<Property>, i: nat, prefix: string, is32Bit: bool, depth: nat)
    returns (n: Node)
    requires depth <= MAX_STRUCT_DEPTH && FlattenOne(ps, i, prefix, is32Bit, depth).Ok?
    ensures RepresentsNode(ps, i, n) && depth + NodeLevels(n) <= MAX_STRUCT_DEPTH
    decreases MAX_STRUCT_DEPTH - depth, 0
  {
    var p := ps[i];
    if p.isStruct {
      var members := WalkedIsForest(ps, p.structStart, p.structStart + p.structCount,
                                    QualifiedName(prefix, p.name, i), is32Bit, depth + 1);
      n := Struct(i, p, members);
    } else {
      n := Field(i, p);
    }
  }

  /**
   A schema is walked without an error if and only if its records stand for a forest of at most eight levels
   of structs; a record that is not there, or one that contains itself, leaves it without any.
   */
  lemma {:induction false} WalkedIff(ps: seq<Property>, count: nat, is32Bit: bool)
    ensures Flatten(ps, 0, count, "", is32Bit, 0).Ok?
       <==> exists forest :: Represents(ps, 0, count, forest) && Levels(forest) <= MAX_STRUCT_DEPTH
  {
    if Flatten(ps, 0, count, "", is32Bit, 0).Ok? {
      var forest := WalkedIsForest(ps, 0, count, "", is32Bit, 0);
    }
    if forest :| Represents(ps, 0, count, forest) && Levels(forest) <= MAX_STRUCT_DEPTH {
      WalkGivesLeaves(ps, 0, count, forest, [], is32Bit, 0);
    }
  }
}
