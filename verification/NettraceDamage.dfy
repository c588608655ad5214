/** Field metadata that is damaged: what the parser keeps of an object. */
module NettraceDamage {
  import opened MachineInt
  import opened Outcome
  import opened EventFormats
  import opened Nettrace
  import opened NettraceTrees
  import opened TypeTables

  /** No type starts here: the data ends, or the code is none. */
  predicate NoType(data: seq<u8>) { |data| < 4 || ShapeOfCode(Le32(data[..4])) == None }

  predicate StartsWith(data: seq<u8>, code: u32) { |data| >= 4 && Le32(data[..4]) == code }

  /** An array whose elements have a format of their own. */
  predicate NestedArray(data: seq<u8>) {
    StartsWith(data, 19) && (StartsWith(data[4..], 1) || StartsWith(data[4..], 19))
  }

  /** An array of no type. */
  predicate ArrayOfNothing(data: seq<u8>) { StartsWith(data, 19) && NoType(data[4..]) }

  /** How the loop ends on a type that is not understood: where it is, behind the word for an array, or with nothing. */
  function EndsTyped(data: seq<u8>, format: seq<EventField>): Turn {
    if NestedArray(data) then GiveUp(format)
    else if ArrayOfNothing(data) then Leave(data[4..], format)
    else Leave(data, format)
  }

  lemma {:induction false} ParseTypeIs(data: seq<u8>)
    ensures NoType(data) <==> ParseType(data) == None
    ensures StartsWith(data, 1) ==> ParseType(data) == Some(FieldType("object", 0))
    ensures StartsWith(data, 19) ==> ParseType(data) == Some(FieldType("array", 0))
  {
    if |data| >= 4 {
      CodesAreTypes(Le32(data[..4]));
    }
  }

  lemma {:induction false} TypeBreaks(data: seq<u8>, format: seq<EventField>, depth: nat, next: Option<seq<u8>>,
                                      name: string)
    requires depth <= MAX_DEPTH && (NoType(data) || NestedArray(data) || ArrayOfNothing(data))
    ensures ParseTyped(data, format, depth, next, name) == EndsTyped(data, format)
  {
    ParseTypeIs(data);
    if |data| >= 4 {
      ParseTypeIs(data[4..]);
    }
  }

  /** A field that cannot be parsed: by its type, or in the V2 layout by its length or the type behind its name. */
  ghost predicate Breaks(data: seq<u8>, v2: bool, format: seq<EventField>, turn: Turn) {
    if !v2 then (NoType(data) || NestedArray(data) || ArrayOfNothing(data)) && turn == EndsTyped(data, format)
    else
      || ((|data| < 4 || Le32(data[..4]) > |data|) && turn == Leave(data, format))
      || exists name, typed ::
           && PlainName(name) && |data| >= 4 && Le32(data[..4]) <= |data| && data[4..] == EncodeName(name) + typed
           && (NoType(typed) || NestedArray(typed) || ArrayOfNothing(typed)) && turn == EndsTyped(typed, format)
  }

  lemma {:induction false} FieldBreaks(data: seq<u8>, v2: bool, format: seq<EventField>, depth: nat, turn: Turn)
    requires depth <= MAX_DEPTH && Breaks(data, v2, format, turn)
    ensures ParseField(data, format, depth, v2) == turn
  {
    if !v2 {
      TypeBreaks(data, format, depth, None, "");
    } else if |data| >= 4 && Le32(data[..4]) <= |data| {
      var name, typed :| PlainName(name) && data[4..] == EncodeName(name) + typed
        && (NoType(typed) || NestedArray(typed) || ArrayOfNothing(typed)) && turn == EndsTyped(typed, format);
      NamedBreaks(data, format, depth, name, typed, Le32(data[..4]));
    }
  }

  lemma {:induction false} NamedBreaks(data: seq<u8>, format: seq<EventField>, depth: nat, name: string, typed: seq<u8>,
                                       size: nat)
    requires depth <= MAX_DEPTH && PlainName(name) && |data| >= 4 && size == Le32(data[..4]) <= |data|
    requires data[4..] == EncodeName(name) + typed
    requires NoType(typed) || NestedArray(typed) || ArrayOfNothing(typed)
    ensures ParseField(data, format, depth, true) == EndsTyped(typed, format)
  {
    ReadsName(name, typed);
    TypeBreaks(typed, format, depth, Some(data[size..]), name);
  }

  lemma {:induction false} FirstField(nodes: seq<Node>, v2: bool, data: seq<u8>, after: seq<u8>, rest: seq<u8>,
                                      format: seq<EventField>, depth: nat)
    requires nodes != [] && NodesOk(nodes, v2) && NodesFit(nodes, v2) && depth + NodesDepth(nodes) <= MAX_DEPTH
    requires data == EncodeNodes(nodes, v2) + rest && after == EncodeNodes(nodes[1..], v2) + rest
    ensures ParseField(data, format, depth, v2) == More(after, AddNode(format, nodes[0]))
  {
    FirstIsOk(nodes, v2, depth);
    CutFirst(EncodeNode(nodes[0], v2), EncodeNodes(nodes[1..], v2), rest, data, after);
    NodeRoundTrip(nodes[0], v2, after, format, depth);
  }

  lemma {:induction false} FirstIsOk(nodes: seq<Node>, v2: bool, depth: nat)
    requires nodes != [] && NodesOk(nodes, v2) && NodesFit(nodes, v2) && depth + NodesDepth(nodes) <= MAX_DEPTH
    ensures NodeOk(nodes[0]) && (!v2 && nodes[0].ArrayOf? ==> nodes[0].name == "") && NodeFits(nodes[0], v2)
    ensures nodes[0].Object? ==> depth + BodyDepth(nodes[0].body) <= MAX_DEPTH
    ensures NodesOk(nodes[1..], v2) && NodesFit(nodes[1..], v2) && depth + NodesDepth(nodes[1..]) <= MAX_DEPTH
    ensures EncodeNodes(nodes, v2) == EncodeNode(nodes[0], v2) + EncodeNodes(nodes[1..], v2)
  {
  }

  lemma {:induction false} CutFirst(first: seq<u8>, others: seq<u8>, rest: seq<u8>, data: seq<u8>, after: seq<u8>)
    requires data == first + others + rest && after == others + rest
    ensures data == first + after
  {
  }

  /** Fields that are understood are added, whatever comes behind them. */
  lemma {:induction false} FieldsThen(nodes: seq<Node>, v2: bool, rest: seq<u8>, format: seq<EventField>, depth: nat,
                                      count: nat)
    requires NodesOk(nodes, v2) && NodesFit(nodes, v2) && depth + NodesDepth(nodes) <= MAX_DEPTH && |nodes| <= count
    ensures ParseFields(EncodeNodes(nodes, v2) + rest, format, depth, count, v2)
         == ParseFields(rest, AddLeaves(format, nodes), depth, count - |nodes|, v2)
    decreases nodes
  {
    if nodes == [] {
      assert EncodeNodes(nodes, v2) + rest == rest;
    } else {
      var data, after := EncodeNodes(nodes, v2) + rest, EncodeNodes(nodes[1..], v2) + rest;
      FirstField(nodes, v2, data, after, rest, format, depth);
      NextTurn(data, after, format, AddNode(format, nodes[0]), depth, count, v2);
      FieldsThen(nodes[1..], v2, rest, AddNode(format, nodes[0]), depth, count - 1);
    }
  }

  lemma {:induction false} BrokenTurn(rest: seq<u8>, v2: bool, format: seq<EventField>, depth: nat, count: nat,
                                      turn: Turn)
    requires depth <= MAX_DEPTH && count > 0 && Breaks(rest, v2, format, turn)
    ensures ParseFields(rest, format, depth, count, v2) == if turn.GiveUp? then ([], format) else (turn.rest, format)
  {
    FieldBreaks(rest, v2, format, depth, turn);
    assert turn.format == format;
  }

  /**
   Whatever is wrong with a field, the leaves of those before it are kept and nothing else is added; the rest of the
   data goes on where the parser stopped, or is given up for an array with a format of its own.
   */
  lemma {:induction false} DamageKeepsBefore(nodes: seq<Node>, v2: bool, rest: seq<u8>, format: seq<EventField>,
                                             depth: nat, count: nat, turn: Turn)
    requires NodesOk(nodes, v2) && NodesFit(nodes, v2) && depth + NodesDepth(nodes) <= MAX_DEPTH && |nodes| < count
    requires Breaks(rest, v2, AddLeaves(format, nodes), turn)
    ensures ParseFields(EncodeNodes(nodes, v2) + rest, format, depth, count, v2)
         == (if turn.GiveUp? then [] else turn.rest, AddLeaves(format, nodes))
  {
    FieldsThen(nodes, v2, rest, format, depth, count);
    BrokenTurn(rest, v2, AddLeaves(format, nodes), depth, count - |nodes|, turn);
  }

  /** The same for a whole plain object that announces more fields than are understood. */
  lemma {:induction false} DamagedObject(nodes: seq<Node>, rest: seq<u8>, format: seq<EventField>, depth: nat,
                                         count: u32, turn: Turn)
    requires NodesOk(nodes, false) && NodesFit(nodes, false) && depth + NodesDepth(nodes) <= MAX_DEPTH
    requires |nodes| < count && Breaks(rest, false, AddLeaves(format, nodes), turn)
    ensures ParseObject(Bytes32(count) + (EncodeNodes(nodes, false) + rest), format, depth)
         == (if turn.GiveUp? then [] else turn.rest, AddLeaves(format, nodes))
  {
    var fields := EncodeNodes(nodes, false) + rest;
    ReadsInt(count, fields);
    DamageKeepsBefore(nodes, false, rest, format, depth, count, turn);
  }

  /** A parameter block without a size, its tag or its count has no fields; only what is behind a lone tag is left. */
  lemma {:induction false} DamagedBlock(bytes: u32, params: seq<u8>, format: seq<EventField>, depth: nat)
    requires depth <= MAX_DEPTH && (|params| < 5 || bytes == 0 || params[0] != 2)
    ensures ParseObject(Bytes32(0) + (Bytes32(bytes) + params), format, depth)
         == (if bytes == 0 || params == [] || params[0] != 2 then [] else params[1..], format)
  {
    ReadsInt(0, Bytes32(bytes) + params);
    ReadsInt(bytes, params);
  }

  /** An object below the deepest level adds nothing, and what follows it is given up. */
  lemma {:induction false} TooDeep(data: seq<u8>, format: seq<EventField>, depth: nat)
    requires depth > MAX_DEPTH
    ensures ParseObject(data, format, depth) == ([], format)
  {
  }

  /** In the V2 layout the field's length still leads to the fields behind such an object. */
  lemma {:induction false} TooDeepIsSkipped(inner: seq<u8>, format: seq<EventField>, next: seq<u8>, name: string)
    ensures ParseTyped(Bytes32(TYPE_OBJECT) + inner, format, MAX_DEPTH, Some(next), name) == More(next, format)
    ensures ParseTyped(Bytes32(TYPE_OBJECT) + inner, format, MAX_DEPTH, None, name) == More([], format)
  {
    ReadsInt(TYPE_OBJECT, inner);
    TooDeep(inner, format, MAX_DEPTH + 1);
  }
}
