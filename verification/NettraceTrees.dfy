/** Field trees, their wire encoding, and the parser as its inverse. */
module NettraceTrees {
  import opened MachineInt
  import opened Outcome
  import opened EventFormats
  import RecordLayouts
  import opened Nettrace

  /** A field is a value of a scalar or string type, an array of those, or a nested object. */
  datatype Node =
    | Leaf(name: string, code: nat)
    | ArrayOf(name: string, code: nat)
    | Object(name: string, body: Body)

  /** The fields of an object, in the plain layout or behind a V2 parameter block of the given size. */
  datatype Body =
    | V1(nodes: seq<Node>)
    | V2(size: nat, nodes: seq<Node>)

  predicate ScalarCode(code: nat) {
    TypeOf(code).Some? && code != TYPE_OBJECT && code != TYPE_ARRAY
  }

  /** Names the wire can carry: no terminator, no surrogates, one unit per character. */
  predicate PlainName(name: string) {
    forall i :: 0 <= i < |name| ==> 0 < name[i] as int < TWO_16
  }

  function EncodeName(name: string): seq<u8>
    requires PlainName(name)
  {
    if name == "" then [0, 0] else Bytes16(name[0] as int) + EncodeName(name[1..])
  }

  function EncodeBody(b: Body): seq<u8>
    requires BodyOk(b)
    decreases b, 1
  {
    if b.V1? then Bytes32(|b.nodes|) + EncodeNodes(b.nodes, false)
    else Bytes32(0) + (Bytes32(b.size) + ([2] + (Bytes32(|b.nodes|) + EncodeNodes(b.nodes, true))))
  }

  function EncodeNodes(nodes: seq<Node>, v2: bool): seq<u8>
    requires NodesOk(nodes, v2)
    decreases nodes, 0
  {
    if nodes == [] then [] else EncodeNode(nodes[0], v2) + EncodeNodes(nodes[1..], v2)
  }

  /** The part of a field that follows its name in the V2 layout. */
  function EncodeType(n: Node): seq<u8>
    requires NodeOk(n)
    decreases n, 0
  {
    match n
    case Leaf(_, code) => Bytes32(code)
    case ArrayOf(_, code) => Bytes32(TYPE_ARRAY) + Bytes32(code)
    case Object(_, body) => Bytes32(TYPE_OBJECT) + EncodeBody(body)
  }

  /** A V2 field states its own length, in 32 bits. */
  function EncodeNode(n: Node, v2: bool): seq<u8>
    requires NodeOk(n)
    decreases n, 1
  {
    if v2 then Bytes32(SizeOf(n) % TWO_32) + (EncodeName(n.name) + EncodeType(n))
    else if n.ArrayOf? then EncodeType(n)
    else EncodeType(n) + EncodeName(n.name)
  }

  function SizeOf(n: Node): nat
    requires NodeOk(n)
    decreases n, 1, 0
  {
    4 + |EncodeName(n.name)| + |EncodeType(n)|
  }

  predicate NodeOk(n: Node)
    decreases n, 0
  {
    PlainName(n.name) &&
    match n
    case Leaf(_, code) => ScalarCode(code) && code < TWO_32
    case ArrayOf(_, code) => ScalarCode(code) && code < TWO_32
    case Object(_, body) => BodyOk(body)
  }

  /** In the plain layout an array carries no name. */
  predicate NodesOk(nodes: seq<Node>, v2: bool)
    decreases nodes, 0
  {
    nodes == [] ||
    (NodeOk(nodes[0]) && (!v2 && nodes[0].ArrayOf? ==> nodes[0].name == "") && NodesOk(nodes[1..], v2))
  }

  /** A plain object has at least one field: a count of zero announces the V2 block. */
  predicate BodyOk(b: Body)
    decreases b, 1
  {
    |b.nodes| < TWO_32 &&
    if b.V1? then b.nodes != [] && NodesOk(b.nodes, false) else 0 < b.size < TWO_32 && NodesOk(b.nodes, true)
  }

  /** Every V2 field's length fits its 32 bits. */
  predicate NodesFit(nodes: seq<Node>, v2: bool)
    requires NodesOk(nodes, v2)
    decreases nodes, 0
  {
    nodes == [] || (NodeFits(nodes[0], v2) && NodesFit(nodes[1..], v2))
  }

  predicate NodeFits(n: Node, v2: bool)
    requires NodeOk(n)
    decreases n, 0
  {
    (v2 ==> SizeOf(n) < TWO_32) && (n.Object? ==> BodyFits(n.body))
  }

  predicate BodyFits(b: Body)
    requires BodyOk(b)
    decreases b, 1
  {
    NodesFit(b.nodes, b.V2?)
  }

  function BodyDepth(b: Body): nat
    decreases b, 1
  {
    1 + NodesDepth(b.nodes)
  }

  function NodesDepth(nodes: seq<Node>): nat
    decreases nodes, 0
  {
    if nodes == [] then 0
    else
      var first := if nodes[0].Object? then BodyDepth(nodes[0].body) else 0;
      var others := NodesDepth(nodes[1..]);
      if first > others then first else others
  }

  /** Adding the leaves of a tree to a format, in order. */
  function AddLeaves(format: seq<EventField>, nodes: seq<Node>): seq<EventField>
    decreases nodes, 0
  {
    if nodes == [] then format else AddLeaves(AddNode(format, nodes[0]), nodes[1..])
  }

  function AddNode(format: seq<EventField>, n: Node): seq<EventField>
    decreases n, 0
  {
    match n
    case Leaf(name, code) => format + [NextField(format, name, [LeafType(code).word], LeafType(code).size)]
    case ArrayOf(name, code) => format + [NextField(format, name, ["__dyn_array", LeafType(code).word], 0)]
    case Object(_, body) => AddLeaves(format, body.nodes)
  }

  function LeafType(code: nat): FieldType {
    match TypeOf(code)
    case Some(t) => t
    case None => FieldType("", 0)
  }

  // --- round trip -----------------------------------------------------------------------------

  lemma {:induction false} ReadsInt(v: u32, tail: seq<u8>)
    ensures ReadInt(Bytes32(v) + tail) == Some(v) && (Bytes32(v) + tail)[4..] == tail
  {
  }

  lemma {:induction false} ReadsName(name: string, tail: seq<u8>)
    requires PlainName(name)
    ensures StringAt(EncodeName(name) + tail) == (tail, name)
  {
    var data := EncodeName(name) + tail;
    if name == "" {
      assert data[..2] == [0, 0] && data[2..] == tail;
    } else {
      var unit := Bytes16(name[0] as int);
      assert data[..2] == unit && data[2..] == EncodeName(name[1..]) + tail;
      ReadsName(name[1..], tail);
      assert UnitChar(name[0] as int) == name[0];
      assert name == [name[0]] + name[1..];
    }
  }

  function Units(units: seq<u16>): seq<u8> {
    if units == [] then [0, 0] else Bytes16(units[0]) + Units(units[1..])
  }

  /** What a unit is shown as: itself, unless it is half of a surrogate pair. */
  predicate Shows(unit: u16, c: char) {
    if 0xD800 <= unit <= 0xDFFF then c == '?' else c as int == unit
  }

  /** Any UTF-16 name is read up to its terminator, a character for a unit. */
  lemma {:induction false} UnitsAreRead(units: seq<u16>, tail: seq<u8>)
    requires forall i :: 0 <= i < |units| ==> units[i] != 0
    ensures var (rest, name) := StringAt(Units(units) + tail);
      rest == tail && |name| == |units| && forall i :: 0 <= i < |units| ==> Shows(units[i], name[i])
  {
    var data := Units(units) + tail;
    if units == [] {
      assert data[..2] == [0, 0] && data[2..] == tail;
    } else {
      assert data[..2] == Bytes16(units[0]) && data[2..] == Units(units[1..]) + tail;
      UnitsAreRead(units[1..], tail);
      var name := StringAt(data).1;
      var more := StringAt(data[2..]).1;
      assert name == [UnitChar(units[0])] + more;
      forall i | 0 <= i < |units|
        ensures Shows(units[i], name[i])
      {
        if i > 0 {
          assert Shows(units[1..][i - 1], more[i - 1]);
        }
      }
    }
  }

  lemma {:induction false} ReadsHeader(b: Body, fields: seq<u8>)
    requires |b.nodes| < TWO_32 && (if b.V1? then b.nodes != [] else 0 < b.size < TWO_32)
    ensures var n := |b.nodes|;
      HeaderAt(if b.V1? then Bytes32(n) + fields else Bytes32(0) + (Bytes32(b.size) + ([2] + (Bytes32(n) + fields))))
      == Fields(fields, n, b.V2?)
  {
  }

  /** Parsing an encoded object adds its leaves and leaves what follows it. */
  lemma {:induction false} BodyRoundTrip(b: Body, tail: seq<u8>, format: seq<EventField>, depth: nat)
    requires BodyOk(b) && BodyFits(b) && depth + BodyDepth(b) <= MAX_DEPTH + 1
    ensures ParseObject(EncodeBody(b) + tail, format, depth) == (tail, AddLeaves(format, b.nodes))
    decreases b, 1
  {
    ReadsBodyHeader(b, tail);
    NodesRoundTrip(b.nodes, b.V2?, tail, format, depth);
  }

  lemma {:induction false} ReadsBodyHeader(b: Body, tail: seq<u8>)
    requires BodyOk(b)
    ensures HeaderAt(EncodeBody(b) + tail) == Fields(EncodeNodes(b.nodes, b.V2?) + tail, |b.nodes|, b.V2?)
  {
    var fields := EncodeNodes(b.nodes, b.V2?) + tail;
    ReadsHeader(b, fields);
    var nodes := EncodeNodes(b.nodes, b.V2?);
    if b.V1? {
      RegroupHeader([], [], [], Bytes32(|b.nodes|), nodes, tail);
    } else {
      RegroupHeader(Bytes32(0), Bytes32(b.size), [2], Bytes32(|b.nodes|), nodes, tail);
    }
  }

  lemma {:induction false} RegroupHeader(a: seq<u8>, b: seq<u8>, c: seq<u8>, d: seq<u8>, e: seq<u8>,
                                          tail: seq<u8>)
    ensures d + e + tail == d + (e + tail)
    ensures a + (b + (c + (d + e))) + tail == a + (b + (c + (d + (e + tail))))
  {
  }

  lemma {:induction false} NodesRoundTrip(nodes: seq<Node>, v2: bool, tail: seq<u8>, format: seq<EventField>,
                                          depth: nat)
    requires NodesOk(nodes, v2) && NodesFit(nodes, v2) && depth + NodesDepth(nodes) <= MAX_DEPTH
    ensures ParseFields(EncodeNodes(nodes, v2) + tail, format, depth, |nodes|, v2) == (tail, AddLeaves(format, nodes))
    decreases nodes, 0
  {
    if nodes == [] {
      assert EncodeNodes(nodes, v2) + tail == tail;
    } else {
      var first, others := EncodeNode(nodes[0], v2), EncodeNodes(nodes[1..], v2);
      assert (first + others) + tail == first + (others + tail);
      NodeRoundTrip(nodes[0], v2, others + tail, format, depth);
      NodesRoundTrip(nodes[1..], v2, tail, AddNode(format, nodes[0]), depth);
      NextTurn(first + (others + tail), others + tail, format, AddNode(format, nodes[0]), depth, |nodes|, v2);
    }
  }

  lemma {:induction false} NextTurn(data: seq<u8>, rest: seq<u8>, format: seq<EventField>, format': seq<EventField>,
                                    depth: nat, count: nat, v2: bool)
    requires depth <= MAX_DEPTH && count > 0 && ParseField(data, format, depth, v2) == More(rest, format')
    ensures ParseFields(data, format, depth, count, v2) == ParseFields(rest, format', depth, count - 1, v2)
  {
  }

  /** A node's bytes from those of its name and type. */
  function Framed(v2: bool, isArray: bool, encoded: seq<u8>, typed: seq<u8>): seq<u8> {
    if v2 then Bytes32((4 + |encoded| + |typed|) % TWO_32) + (encoded + typed)
    else if isArray then typed
    else typed + encoded
  }

  lemma {:induction false} V2Field(name: string, isArray: bool, encoded: seq<u8>, typed: seq<u8>, tail: seq<u8>,
                                   format: seq<EventField>, depth: nat)
    requires depth <= MAX_DEPTH && 4 + |encoded| + |typed| < TWO_32
    requires StringAt(encoded + (typed + tail)) == (typed + tail, name)
    ensures ParseField(Framed(true, isArray, encoded, typed) + tail, format, depth, true)
         == ParseTyped(typed + tail, format, depth, Some(tail), name)
  {
    var size := 4 + |encoded| + |typed|;
    assert size % TWO_32 == size;
    var prefix := Bytes32(size);
    assert Framed(true, isArray, encoded, typed) == prefix + (encoded + typed);
    Regroup(prefix, encoded, typed, tail);
    ReadsInt(size, encoded + (typed + tail));
    SizedField(prefix, size, encoded + (typed + tail), typed + tail, tail, name, format, depth);
  }

  lemma {:induction false} Regroup(prefix: seq<u8>, encoded: seq<u8>, typed: seq<u8>, tail: seq<u8>)
    ensures prefix + (encoded + typed) + tail == prefix + (encoded + (typed + tail))
    ensures (prefix + (encoded + (typed + tail)))[|prefix| + |encoded| + |typed|..] == tail
  {
  }

  /** A field that carries its size is read between the size and the end it gives. */
  lemma {:induction false} SizedField(prefix: seq<u8>, size: u32, data: seq<u8>, rest: seq<u8>, tail: seq<u8>,
                                      name: string,
                                      format: seq<EventField>, depth: nat)
    requires depth <= MAX_DEPTH && ReadInt(prefix + data) == Some(size) && (prefix + data)[4..] == data
    requires size <= |prefix + data| && (prefix + data)[size..] == tail && StringAt(data) == (rest, name)
    ensures ParseField(prefix + data, format, depth, true) == ParseTyped(rest, format, depth, Some(tail), name)
  {
  }

  lemma {:induction false} NodeIsFramed(n: Node, v2: bool)
    requires NodeOk(n)
    ensures EncodeNode(n, v2) == Framed(v2, n.ArrayOf?, EncodeName(n.name), EncodeType(n))
  {
  }

  lemma {:induction false} V1Field(data: seq<u8>, format: seq<EventField>, depth: nat)
    requires depth <= MAX_DEPTH
    ensures ParseField(data, format, depth, false) == ParseTyped(data, format, depth, None, "")
  {
  }

  lemma {:induction false} PlainNodeRoundTrip(n: Node, typed: seq<u8>, encoded: seq<u8>, tail: seq<u8>,
                                              format: seq<EventField>, depth: nat)
    requires NodeOk(n) && (n.ArrayOf? ==> n.name == "") && depth <= MAX_DEPTH
    requires typed == EncodeType(n) && StringAt(encoded + tail) == (tail, n.name)
    requires n.Object? ==> BodyFits(n.body) && depth + BodyDepth(n.body) <= MAX_DEPTH
    ensures ParseField(Framed(false, n.ArrayOf?, encoded, typed) + tail, format, depth, false)
         == More(tail, AddNode(format, n))
    decreases n, 1
  {
    var after := if n.ArrayOf? then tail else encoded + tail;
    assert Framed(false, n.ArrayOf?, encoded, typed) + tail == typed + after;
    V1Field(typed + after, format, depth);
    TypedRoundTrip(n, typed, None, "", after, format, depth);
  }

  lemma {:induction false} V2NodeRoundTrip(n: Node, typed: seq<u8>, encoded: seq<u8>, tail: seq<u8>,
                                           format: seq<EventField>, depth: nat)
    requires NodeOk(n) && 4 + |encoded| + |typed| < TWO_32 && depth <= MAX_DEPTH
    requires typed == EncodeType(n) && StringAt(encoded + (typed + tail)) == (typed + tail, n.name)
    requires n.Object? ==> BodyFits(n.body) && depth + BodyDepth(n.body) <= MAX_DEPTH
    ensures ParseField(Framed(true, n.ArrayOf?, encoded, typed) + tail, format, depth, true)
         == More(tail, AddNode(format, n))
    decreases n, 1
  {
    V2Field(n.name, n.ArrayOf?, encoded, typed, tail, format, depth);
    TypedRoundTrip(n, typed, Some(tail), n.name, tail, format, depth);
  }

  lemma {:induction false} NodeRoundTrip(n: Node, v2: bool, tail: seq<u8>, format: seq<EventField>, depth: nat)
    requires NodeOk(n) && (!v2 && n.ArrayOf? ==> n.name == "") && NodeFits(n, v2) && depth <= MAX_DEPTH
    requires n.Object? ==> depth + BodyDepth(n.body) <= MAX_DEPTH
    ensures ParseField(EncodeNode(n, v2) + tail, format, depth, v2) == More(tail, AddNode(format, n))
    decreases n, 2
  {
    var typed, encoded := EncodeType(n), EncodeName(n.name);
    NodeIsFramed(n, v2);
    if v2 {
      ReadsName(n.name, typed + tail);
      V2NodeRoundTrip(n, typed, encoded, tail, format, depth);
    } else {
      ReadsName(n.name, tail);
      PlainNodeRoundTrip(n, typed, encoded, tail, format, depth);
    }
  }

  lemma {:induction false} TypedLeaf(code: u32, next: Option<seq<u8>>, name: string, after: seq<u8>,
                                     format: seq<EventField>, depth: nat)
    requires ScalarCode(code) && depth <= MAX_DEPTH
    ensures ParseTyped(Bytes32(code) + after, format, depth, next, name)
         == More(if next.Some? then next.value else StringAt(after).0,
                 format + [NextField(format, if next.Some? then name else StringAt(after).1,
                                     [LeafType(code).word], LeafType(code).size)])
  {
  }

  lemma {:induction false} TypedArray(code: u32, next: Option<seq<u8>>, name: string, after: seq<u8>,
                                      format: seq<EventField>, depth: nat)
    requires ScalarCode(code) && depth <= MAX_DEPTH
    ensures ParseTyped(Bytes32(TYPE_ARRAY) + (Bytes32(code) + after), format, depth, next, name)
         == More(if next.Some? then next.value else after,
                 format + [NextField(format, name, ["__dyn_array", LeafType(code).word], 0)])
  {
  }

  lemma {:induction false} TypedObject(inner: seq<u8>, next: Option<seq<u8>>, name: string, after: seq<u8>,
                                       format: seq<EventField>, format': seq<EventField>, depth: nat)
    requires depth <= MAX_DEPTH && ParseObject(inner + after, format, depth + 1) == (after, format')
    ensures ParseTyped(Bytes32(TYPE_OBJECT) + (inner + after), format, depth, next, name)
         == More(if next.Some? then next.value else StringAt(after).0, format')
  {
  }

  /** From its type on: a plain field takes its name from what follows, a V2 field was given it. */
  lemma {:induction false} TypedRoundTrip(n: Node, typed: seq<u8>, next: Option<seq<u8>>, name: string, after: seq<u8>,
                                          format: seq<EventField>, depth: nat)
    requires NodeOk(n) && depth <= MAX_DEPTH && typed == EncodeType(n)
    requires n.Object? ==> BodyFits(n.body) && depth + BodyDepth(n.body) <= MAX_DEPTH
    requires if next.Some? then name == n.name
             else if n.ArrayOf? then name == n.name else StringAt(after).1 == n.name
    ensures ParseTyped(typed + after, format, depth, next, name)
         == More(if next.Some? then next.value else if n.ArrayOf? then after else StringAt(after).0, AddNode(format, n))
    decreases n, 0
  {
    match n {
      case Leaf(_, code) =>
        TypedLeaf(code, next, name, after, format, depth);
      case ArrayOf(_, code) =>
        assert typed + after == Bytes32(TYPE_ARRAY) + (Bytes32(code) + after);
        TypedArray(code, next, name, after, format, depth);
      case Object(_, body) =>
        var inner := EncodeBody(body);
        assert typed + after == Bytes32(TYPE_OBJECT) + (inner + after);
        BodyRoundTrip(body, after, format, depth + 1);
        TypedObject(inner, next, name, after, format, AddLeaves(format, body.nodes), depth);
    }
  }

  // --- what the parsed format is ---------------------------------------------------------------

  /** A leaf as the format records it, apart from its place. */
  datatype LeafInfo = LeafInfo(name: string, typeName: seq<string>, location: LocationType, size: nat)

  function InfoOf(f: EventField): LeafInfo { LeafInfo(f.name, f.typeName, f.location, f.size) }

  function Infos(format: seq<EventField>): seq<LeafInfo> {
    if format == [] then [] else Infos(format[..|format| - 1]) + [InfoOf(format[|format| - 1])]
  }

  /** The leaves of a tree, left to right. */
  function Flatten(nodes: seq<Node>): seq<LeafInfo>
    decreases nodes, 0
  {
    if nodes == [] then [] else FlattenNode(nodes[0]) + Flatten(nodes[1..])
  }

  function FlattenNode(n: Node): seq<LeafInfo>
    decreases n, 0
  {
    match n
    case Leaf(name, code) =>
      var t := LeafType(code);
      [LeafInfo(name, [t.word], if t.word == "string" then StaticUTF16String else Static, t.size)]
    case ArrayOf(name, code) => [LeafInfo(name, ["__dyn_array", LeafType(code).word], StaticLenPrefixArray, 0)]
    case Object(_, body) => Flatten(body.nodes)
  }

  /** Every offset is the sum of the sizes before it. */
  predicate RunningOffsets(format: seq<EventField>) {
    forall k {:trigger format[k]} :: 0 <= k < |format| ==> format[k].offset == SizeBefore(format, k)
  }

  lemma {:induction false} SizeBeforePrefix(format: seq<EventField>, f: EventField, k: nat)
    requires k <= |format|
    ensures SizeBefore(format + [f], k) == SizeBefore(format, k)
  {
    if k > 0 {
      SizeBeforePrefix(format, f, k - 1);
    }
  }

  lemma {:induction false} AppendKeepsOffsets(format: seq<EventField>, f: EventField)
    requires RunningOffsets(format)
    requires f.offset == if format == [] then 0 else format[|format| - 1].offset + format[|format| - 1].size
    ensures RunningOffsets(format + [f]) && Infos(format + [f]) == Infos(format) + [InfoOf(f)]
  {
    EndOffset(format, |format|);
    forall k | 0 <= k <= |format|
      ensures (format + [f])[k].offset == SizeBefore(format + [f], k)
    {
      AppendStands(format, f, k);
    }
    InfosAppend(format, f);
  }

  lemma {:induction false} EndOffset(format: seq<EventField>, n: nat)
    requires n == |format| && RunningOffsets(format)
    ensures SizeBefore(format, n) == if n == 0 then 0 else format[n - 1].offset + format[n - 1].size
  {
  }

  lemma {:induction false} AppendStands(format: seq<EventField>, f: EventField, k: nat)
    requires k <= |format| && f.offset == SizeBefore(format, |format|)
    requires k < |format| ==> format[k].offset == SizeBefore(format, k)
    ensures (format + [f])[k].offset == SizeBefore(format + [f], k)
  {
    SizeBeforePrefix(format, f, k);
  }

  lemma {:induction false} InfosAppend(format: seq<EventField>, f: EventField)
    ensures Infos(format + [f]) == Infos(format) + [InfoOf(f)]
  {
    assert (format + [f])[..|format|] == format;
  }

  lemma {:induction false} ScalarFieldInfo(format: seq<EventField>, name: string, t: FieldType)
    requires exists code :: ScalarCode(code) && t == LeafType(code)
    ensures InfoOf(NextField(format, name, [t.word], t.size))
         == LeafInfo(name, [t.word], if t.word == "string" then StaticUTF16String else Static, t.size)
  {
  }

  lemma {:induction false} ArrayFieldInfo(format: seq<EventField>, name: string, word: string)
    ensures InfoOf(NextField(format, name, ["__dyn_array", word], 0))
         == LeafInfo(name, ["__dyn_array", word], StaticLenPrefixArray, 0)
  {
  }

  lemma {:induction false} LeavesInOrder(format: seq<EventField>, nodes: seq<Node>, v2: bool)
    requires NodesOk(nodes, v2) && RunningOffsets(format)
    ensures RunningOffsets(AddLeaves(format, nodes))
    ensures Infos(AddLeaves(format, nodes)) == Infos(format) + Flatten(nodes)
    decreases nodes, 0
  {
    if nodes != [] {
      NodeInOrder(format, nodes[0]);
      LeavesInOrder(AddNode(format, nodes[0]), nodes[1..], v2);
    }
  }

  lemma {:induction false} NodeInOrder(format: seq<EventField>, n: Node)
    requires NodeOk(n) && RunningOffsets(format)
    ensures RunningOffsets(AddNode(format, n))
    ensures Infos(AddNode(format, n)) == Infos(format) + FlattenNode(n)
    decreases n, 0
  {
    match n {
      case Leaf(name, code) =>
        ScalarFieldInfo(format, name, LeafType(code));
        AppendKeepsOffsets(format, NextField(format, name, [LeafType(code).word], LeafType(code).size));
      case ArrayOf(name, code) =>
        ArrayFieldInfo(format, name, LeafType(code).word);
        AppendKeepsOffsets(format, NextField(format, name, ["__dyn_array", LeafType(code).word], 0));
      case Object(_, body) =>
        LeavesInOrder(format, body.nodes, body.V2?);
    }
  }

  /** The parser undoes the encoder: the in-order leaves at the sums of the sizes before them, and what follows. */
  lemma {:induction false} ParseUndoesEncode(b: Body, tail: seq<u8>)
    requires BodyOk(b) && BodyFits(b) && BodyDepth(b) <= MAX_DEPTH
    ensures var (rest, format) := ParseObject(EncodeBody(b) + tail, [], 1);
      rest == tail && Infos(format) == Flatten(b.nodes) && RunningOffsets(format)
  {
    BodyRoundTrip(b, tail, [], 1);
    LeavesInOrder([], b.nodes, b.V2?);
  }

  // --- arbitrary bytes ----------------------------------------------------------------------------

  predicate Suffix(rest: seq<u8>, data: seq<u8>) {
    |rest| <= |data| && rest == data[|data| - |rest|..]
  }

  lemma {:induction false} SuffixChain(a: seq<u8>, b: seq<u8>, c: seq<u8>)
    requires Suffix(a, b) && Suffix(b, c)
    ensures Suffix(a, c)
  {
  }

  lemma {:induction false} StringLeavesSuffix(data: seq<u8>)
    ensures Suffix(StringAt(data).0, data)
    decreases |data|
  {
    if |data| >= 2 && Le16(data[..2]) != 0 {
      StringLeavesSuffix(data[2..]);
    }
  }

  lemma {:induction false} HeaderLeavesSuffix(data: seq<u8>)
    ensures HeaderAt(data).Fields? ==> Suffix(HeaderAt(data).rest, data)
  {
  }

  /** On any input the parser returns a suffix of it and only appends to the format. */
  lemma {:induction false} ObjectLeavesSuffix(data: seq<u8>, format: seq<EventField>, depth: nat)
    ensures Suffix(ParseObject(data, format, depth).0, data) && format <= ParseObject(data, format, depth).1
    decreases Height(depth), 2, 0
  {
    if depth <= MAX_DEPTH && HeaderAt(data).Fields? {
      var h := HeaderAt(data);
      HeaderLeavesSuffix(data);
      FieldsLeaveSuffix(h.rest, format, depth, h.count, h.v2);
      SuffixChain(ParseObject(data, format, depth).0, h.rest, data);
    }
  }

  lemma {:induction false} FieldsLeaveSuffix(data: seq<u8>, format: seq<EventField>, depth: nat, count: nat, v2: bool)
    requires depth <= MAX_DEPTH
    ensures var (rest, format') := ParseFields(data, format, depth, count, v2); Suffix(rest, data) && format <= format'
    decreases Height(depth), 1, count
  {
    if count > 0 {
      var turn := ParseField(data, format, depth, v2);
      FieldLeavesSuffix(data, format, depth, v2);
      if turn.More? {
        FieldsLeaveSuffix(turn.rest, turn.format, depth, count - 1, v2);
        SuffixChain(ParseFields(data, format, depth, count, v2).0, turn.rest, data);
      }
    }
  }

  predicate TurnOk(t: Turn, data: seq<u8>, format: seq<EventField>) {
    format <= t.format && (!t.GiveUp? ==> Suffix(t.rest, data))
  }

  lemma {:induction false} FieldLeavesSuffix(data: seq<u8>, format: seq<EventField>, depth: nat, v2: bool)
    requires depth <= MAX_DEPTH
    ensures TurnOk(ParseField(data, format, depth, v2), data, format)
    decreases Height(depth), 0, 1
  {
    if !v2 {
      TypedLeavesSuffix(data, data, format, depth, None, "");
    } else if ReadInt(data).Some? && ReadInt(data).value <= |data| {
      var (rest, name) := StringAt(data[4..]);
      StringLeavesSuffix(data[4..]);
      SuffixChain(rest, data[4..], data);
      TypedLeavesSuffix(data, rest, format, depth, Some(data[ReadInt(data).value..]), name);
    }
  }

  lemma {:induction false} TypedLeavesSuffix(whole: seq<u8>, data: seq<u8>, format: seq<EventField>, depth: nat,
                                             next: Option<seq<u8>>, name: string)
    requires depth <= MAX_DEPTH && Suffix(data, whole) && (next.Some? ==> Suffix(next.value, whole))
    ensures TurnOk(ParseTyped(data, format, depth, next, name), whole, format)
    decreases Height(depth), 0, 0
  {
    if ParseType(data).Some? {
      SuffixChain(data[4..], data, whole);
      if ParseType(data).value.word == "object" {
        ObjectLeavesSuffix(data[4..], format, depth + 1);
        ObjectFieldLeavesSuffix(whole, data, format, depth, next, name);
      } else {
        ValueLeavesSuffix(whole, data, format, depth, next, name);
      }
    }
  }

  /** Behind an object stands its name, unless the field says itself where it ends. */
  lemma {:induction false} ObjectFieldLeavesSuffix(whole: seq<u8>, data: seq<u8>, format: seq<EventField>, depth: nat,
                                                   next: Option<seq<u8>>, name: string)
    requires depth <= MAX_DEPTH && (next.Some? ==> Suffix(next.value, whole))
    requires ParseType(data).Some? && ParseType(data).value.word == "object" && Suffix(data[4..], whole)
    requires Suffix(ParseObject(data[4..], format, depth + 1).0, data[4..])
    requires format <= ParseObject(data[4..], format, depth + 1).1
    ensures TurnOk(ParseTyped(data, format, depth, next, name), whole, format)
  {
    NameLeavesSuffix(ParseObject(data[4..], format, depth + 1).0, data[4..], whole);
  }

  lemma {:induction false} ValueLeavesSuffix(whole: seq<u8>, data: seq<u8>, format: seq<EventField>, depth: nat,
                                             next: Option<seq<u8>>, name: string)
    requires depth <= MAX_DEPTH && (next.Some? ==> Suffix(next.value, whole))
    requires ParseType(data).Some? && ParseType(data).value.word != "object" && Suffix(data[4..], whole)
    ensures TurnOk(ParseTyped(data, format, depth, next, name), whole, format)
  {
    var rest := data[4..];
    NameLeavesSuffix(rest, rest, whole);
    if ParseType(rest).Some? {
      SuffixChain(rest[4..], rest, whole);
    }
  }

  lemma {:induction false} NameLeavesSuffix(data: seq<u8>, rest: seq<u8>, whole: seq<u8>)
    requires Suffix(data, rest) && Suffix(rest, whole)
    ensures Suffix(StringAt(data).0, whole)
  {
    StringLeavesSuffix(data);
    SuffixChain(StringAt(data).0, data, rest);
    SuffixChain(StringAt(data).0, rest, whole);
  }

  // --- edges of the round trip ----------------------------------------------------------------------

  /** A plain object without fields is taken for the head of a V2 block as soon as four bytes follow it. */
  lemma {:induction false} EmptyObjectIff(tail: seq<u8>, format: seq<EventField>, depth: nat)
    requires depth <= MAX_DEPTH
    ensures ParseObject(Bytes32(0) + tail, format, depth) == (tail, format) <==> |tail| < 4
  {
    var data := Bytes32(0) + tail;
    ReadsInt(0, tail);
    var h := HeaderAt(data);
    if |tail| >= 4 && h.Fields? {
      assert |h.rest| < |tail|;
      FieldsLeaveSuffix(h.rest, format, depth, h.count, h.v2);
    }
  }

  /** Four more bytes are enough, whatever the caller meant them for. */
  lemma {:induction false} EmptyObjectIsMisread()
    ensures ParseObject(Bytes32(0) + [0, 0, 0, 0], [], 1) != ([0, 0, 0, 0], [])
  {
    EmptyObjectIff([0, 0, 0, 0], [], 1);
  }

  /** The resolver's element size is the parser's exactly for the integer codes. */
  lemma {:induction false} ElementSizeIff(code: nat)
    requires ScalarCode(code)
    ensures TryGetElementSize(["__dyn_array", LeafType(code).word]) == Some(LeafType(code).size) <==> code <= 12
  {
  }

  /** An array of 16-byte identifiers is resolved as an array of bytes, one of floats not at all. */
  lemma {:induction false} OtherArraysDiffer()
    ensures LeafType(17) == FieldType("u8", 16) && TryGetElementSize(["__dyn_array", LeafType(17).word]) == Some(1)
    ensures LeafType(13) == FieldType("float", 4) && TryGetElementSize(["__dyn_array", LeafType(13).word]) == None
  {
  }

  /** End to end: the fields of a parsed tree read back any record written for them. */
  lemma {:induction false} ParsedTreeReadsRecords(b: Body, format: seq<EventField>, values: seq<seq<u8>>,
                                                  tail: seq<u8>, k: nat)
    requires BodyOk(b) && BodyFits(b) && BodyDepth(b) <= MAX_DEPTH
    requires format == ParseObject(EncodeBody(b), [], 1).1
    requires RecordLayouts.Record(format, values) && k < |format|
    ensures AccessorAt(format, k).Some?
    ensures Access(AccessorAt(format, k).value, RecordLayouts.Write(format, values) + tail) == values[k]
  {
    assert EncodeBody(b) + [] == EncodeBody(b);
    ParseUndoesEncode(b, []);
    RecordLayouts.ReadUndoesWrite(format, values, tail, k);
  }
}
