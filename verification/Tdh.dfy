/** Flattening of TraceLogging property trees into event fields. */
module Tdh {
  import opened MachineInt
  import opened Outcome
  import opened EventFormats
  import RecordLayouts

  datatype InType =
    | UnicodeString | AnsiString
    | Int8 | UInt8 | Int16 | UInt16 | Int32 | UInt32 | Int64 | UInt64
    | Float | Double | Boolean | Binary | Guid | Pointer | FileTime | SystemTime | Sid | HexInt32 | HexInt64
    | CountedString | CountedAnsiString
    | ReversedCountedString | ReversedCountedAnsiString
    | NonNullTerminatedString | NonNullTerminatedAnsiString
    | Unknown

  /** One property record; a struct names a range of further records, a leaf its type and length. */
  datatype Property = Property(
    name: string,
    isStruct: bool,
    structStart: u16,
    structCount: u16,
    paramCount: bool,
    count: u16,
    paramLength: bool,
    length: u16,
    inType: InType)

  const MAX_STRUCT_DEPTH: nat := 8

  /** A leaf as the event format records it, apart from its offset. */
  datatype Leaf = Leaf(name: string, typeName: seq<string>, location: LocationType, size: nat)

  function FieldInfo(t: InType, is32Bit: bool): (string, LocationType, nat) {
    match t
    case Int8 => ("s8", Static, 1)
    case UInt8 => ("u8", Static, 1)
    case Int16 => ("s16", Static, 2)
    case UInt16 => ("u16", Static, 2)
    case Int32 | HexInt32 => ("s32", Static, 4)
    case UInt32 => ("u32", Static, 4)
    case Boolean => ("u32", Static, 4)
    case Int64 | HexInt64 => ("s64", Static, 8)
    case UInt64 => ("u64", Static, 8)
    case Float => ("float", Static, 4)
    case Double => ("double", Static, 8)
    case Pointer => ("pointer", Static, if is32Bit then 4 else 8)
    case FileTime => ("filetime", Static, 8)
    case SystemTime => ("systemtime", Static, 16)
    case Guid => ("guid", Static, 16)
    case AnsiString => ("string", StaticString, 0)
    case UnicodeString => ("wstring", StaticUTF16String, 0)
    case CountedString => ("counted_wstring", StaticLenPrefixArray, 0)
    case CountedAnsiString => ("counted_string", StaticLenPrefixArray, 0)
    case ReversedCountedString => ("wstring", StaticUTF16String, 0)
    case ReversedCountedAnsiString => ("string", StaticString, 0)
    case NonNullTerminatedString => ("wstring", StaticUTF16String, 0)
    case NonNullTerminatedAnsiString => ("string", StaticString, 0)
    case Sid | Binary => ("binary", Static, 0)
    case Unknown => ("unsupported", Static, 0)
  }

  /** Types whose length is found in the payload, whatever length the schema reports. */
  predicate IsVariable(t: InType) {
    t.UnicodeString? || t.AnsiString? || t.CountedString? || t.CountedAnsiString?
    || t.ReversedCountedString? || t.ReversedCountedAnsiString?
    || t.NonNullTerminatedString? || t.NonNullTerminatedAnsiString?
  }

  function Digit(d: nat): char
    requires d < 10
  {
    "0123456789"[d]
  }

  function Decimal(n: nat): string {
    if n < 10 then [Digit(n)] else Decimal(n / 10) + [Digit(n % 10)]
  }

  function QualifiedName(prefix: string, raw: string, i: nat): string {
    var name := if raw == "" then "field" + Decimal(i) else raw;
    if prefix == "" then name else prefix + "." + name
  }

  /** The leaf a property without members stands for. */
  function LeafOf(p: Property, name: string, is32Bit: bool): Leaf {
    if p.paramCount && p.count != 1 then Leaf(name, ["unsupported"], Static, 0)
    else if !IsVariable(p.inType) && !p.paramLength && p.length > 0 then
      Leaf(name, [FieldInfo(p.inType, false).0], Static, p.length)
    else
      var (typeName, location, size) := FieldInfo(p.inType, is32Bit);
      Leaf(name, [typeName], location, size)
  }

  /** The leaves of a range of records, depth first; an index outside the records or a ninth level is an error. */
  function Flatten(ps: seq<Property>, lo: nat, hi: nat, prefix: string, is32Bit: bool, depth: nat): Result<seq<Leaf>>
    requires depth <= MAX_STRUCT_DEPTH
    decreases MAX_STRUCT_DEPTH - depth, hi - lo
  {
    if lo >= hi then Ok([])
    else
      var first :- FlattenOne(ps, lo, prefix, is32Bit, depth);
      var others :- Flatten(ps, lo + 1, hi, prefix, is32Bit, depth);
      Ok(first + others)
  }

  function FlattenOne(ps: seq<Property>, i: nat, prefix: string, is32Bit: bool, depth: nat): Result<seq<Leaf>>
    requires depth <= MAX_STRUCT_DEPTH
    decreases MAX_STRUCT_DEPTH - depth, 0
  {
    if i >= |ps| then Err(Rejected)
    else
      var name := QualifiedName(prefix, ps[i].name, i);
      if !ps[i].isStruct then Ok([LeafOf(ps[i], name, is32Bit)])
      else if depth >= MAX_STRUCT_DEPTH then Err(Rejected)
      else Flatten(ps, ps[i].structStart, ps[i].structStart + ps[i].structCount, name, is32Bit, depth + 1)
  }

  // --- placement --------------------------------------------------------------------------------

  function Total(leaves: seq<Leaf>): nat {
    if leaves == [] then 0 else Total(leaves[..|leaves| - 1]) + leaves[|leaves| - 1].size
  }

  predicate HasVariable(leaves: seq<Leaf>) {
    exists i :: 0 <= i < |leaves| && leaves[i].size == 0
  }

  /** Offsets are the sizes so far up to and including the first variable-length leaf, and 0 behind it. */
  function PlacedAt(leaves: seq<Leaf>, k: nat): EventField
    requires k < |leaves|
  {
    var l := leaves[k];
    EventField(l.name, l.typeName, l.location, if HasVariable(leaves[..k]) then 0 else Total(leaves[..k]), l.size)
  }

  function Place(leaves: seq<Leaf>): seq<EventField> {
    seq(|leaves|, k requires 0 <= k < |leaves| => PlacedAt(leaves, k))
  }

  lemma {:induction false} PlaceSnoc(leaves: seq<Leaf>, l: Leaf)
    ensures Place(leaves + [l]) == Place(leaves)
      + [EventField(l.name, l.typeName, l.location, if HasVariable(leaves) then 0 else Total(leaves), l.size)]
    ensures Total(leaves + [l]) == Total(leaves) + l.size
    ensures HasVariable(leaves + [l]) <==> HasVariable(leaves) || l.size == 0
  {
    var all := leaves + [l];
    assert all[..|leaves|] == leaves;
    forall k | 0 <= k < |leaves|
      ensures PlacedAt(all, k) == PlacedAt(leaves, k)
    {
      assert all[..k] == leaves[..k];
    }
    if HasVariable(leaves) {
      var i :| 0 <= i < |leaves| && leaves[i].size == 0;
      assert all[i].size == 0;
    }
    if l.size == 0 {
      assert all[|leaves|].size == 0;
    }
  }

  /** The mutable arguments walk_properties threads through its recursion. */
  class Walker {
    var fields: seq<EventField>
    var runningOffset: nat
    var seenVariable: bool
    ghost var leaves: seq<Leaf>

    constructor ()
      ensures Valid() && leaves == []
    {
      fields, runningOffset, seenVariable, leaves := [], 0, false, [];
    }

    ghost predicate Valid()
      reads this
    {
      && fields == Place(leaves) && seenVariable == HasVariable(leaves)
      && (!seenVariable ==> runningOffset == Total(leaves))
    }

    method AddField(name: string, typeName: string, location: LocationType, offset: nat, size: nat)
      modifies this`fields
      ensures fields == old(fields) + [EventField(name, [typeName], location, offset, size)]
    {
      fields := fields + [EventField(name, [typeName], location, offset, size)];
    }

    method AddLeaf(p: Property, name: string, is32Bit: bool)
      requires Valid()
      modifies this
      ensures Valid() && leaves == old(leaves) + [LeafOf(p, name, is32Bit)]
    {
      PlaceSnoc(leaves, LeafOf(p, name, is32Bit));
      leaves := leaves + [LeafOf(p, name, is32Bit)];
      var offset := if seenVariable then 0 else runningOffset;
      if p.paramCount && p.count != 1 {
        AddField(name, "unsupported", Static, offset, 0);
        seenVariable := true;
        return;
      }
      if !IsVariable(p.inType) && !p.paramLength && p.length > 0 {
        AddField(name, FieldInfo(p.inType, false).0, Static, offset, p.length);
        if !seenVariable {
          runningOffset := runningOffset + p.length;
        }
        return;
      }
      var (typeName, location, size) := FieldInfo(p.inType, is32Bit);
      AddField(name, typeName, location, offset, size);
      if size == 0 {
        seenVariable := true;
      } else if !seenVariable {
        runningOffset := runningOffset + size;
      }
    }

    /** walk_properties: adds the leaves below the range, or reports the malformed schema. */
    method WalkProperties(ps: seq<Property>, lo: nat, hi: nat, prefix: string, is32Bit: bool, depth: nat)
      returns (r: Result<()>)
      requires Valid() && depth <= MAX_STRUCT_DEPTH
      modifies this
      ensures Valid()
      ensures match Flatten(ps, lo, hi, prefix, is32Bit, depth)
        case Err(e) => r == Err(e)
        case Ok(more) => r == Ok(()) && leaves == old(leaves) + more
      decreases MAX_STRUCT_DEPTH - depth, 1
    {
      var i := lo;
      ghost var done: seq<Leaf> := [];
      ghost var whole := Flatten(ps, lo, hi, prefix, is32Bit, depth);
      assert whole.Ok? ==> done + whole.value == whole.value;
      while i < hi
        invariant Valid() && leaves == old(leaves) + done
        invariant Continues(whole, done, Flatten(ps, i, hi, prefix, is32Bit, depth))
        decreases hi - i
      {
        ghost var one, before := FlattenOne(ps, i, prefix, is32Bit, depth), leaves;
        ContinuesPast(ps, i, hi, prefix, is32Bit, depth, whole, done);
        var _ :- WalkProperty(ps, i, prefix, is32Bit, depth);
        assert leaves == before + one.value;
        done := done + one.value;
        i := i + 1;
      }
      assert Flatten(ps, i, hi, prefix, is32Bit, depth) == Ok([]) && done + [] == done;
      return Ok(());
    }

    /** One turn of the loop: a struct recurses into its range, anything else adds one leaf. */
    method WalkProperty(ps: seq<Property>, i: nat, prefix: string, is32Bit: bool, depth: nat) returns (r: Result<()>)
      requires Valid() && depth <= MAX_STRUCT_DEPTH
      modifies this
      ensures Valid()
      ensures match FlattenOne(ps, i, prefix, is32Bit, depth)
        case Err(e) => r == Err(e)
        case Ok(more) => r == Ok(()) && leaves == old(leaves) + more
      decreases MAX_STRUCT_DEPTH - depth, 0
    {
      if i >= |ps| {
        return Err(Rejected);
      }
      var p := ps[i];
      var name := QualifiedName(prefix, p.name, i);
      if p.isStruct {
        if depth >= MAX_STRUCT_DEPTH {
          return Err(Rejected);
        }
        r := WalkProperties(ps, p.structStart, p.structStart + p.structCount, name, is32Bit, depth + 1);
      } else {
        AddLeaf(p, name, is32Bit);
        r := Ok(());
      }
    }
  }

  /** `whole` is `done` followed by `rest`, or fails with it. */
  predicate Continues(whole: Result<seq<Leaf>>, done: seq<Leaf>, rest: Result<seq<Leaf>>) {
    match rest
    case Err(e) => whole == Err(e)
    case Ok(more) => whole == Ok(done + more)
  }

  lemma {:induction false} ContinuesPast(ps: seq<Property>, i: nat, hi: nat, prefix: string, is32Bit: bool, depth: nat,
                                         whole: Result<seq<Leaf>>, done: seq<Leaf>)
    requires depth <= MAX_STRUCT_DEPTH && i < hi
    requires Continues(whole, done, Flatten(ps, i, hi, prefix, is32Bit, depth))
    ensures match FlattenOne(ps, i, prefix, is32Bit, depth)
      case Err(e) => whole == Err(e)
      case Ok(first) => Continues(whole, done + first, Flatten(ps, i + 1, hi, prefix, is32Bit, depth))
  {
    var one := FlattenOne(ps, i, prefix, is32Bit, depth);
    var others := Flatten(ps, i + 1, hi, prefix, is32Bit, depth);
    if one.Ok? && others.Ok? {
      assert done + (one.value + others.value) == (done + one.value) + others.value;
    }
  }

  // --- the layout the resolver relies on ----------------------------------------------------------

  lemma {:induction false} SizesArePlaced(leaves: seq<Leaf>, k: nat)
    requires k <= |leaves|
    ensures SizeBefore(Place(leaves), k) == Total(leaves[..k])
  {
    if k > 0 {
      SizesArePlaced(leaves, k - 1);
      assert leaves[..k][..k - 1] == leaves[..k - 1];
    }
  }

  lemma {:induction false} PlacedIsGapFree(leaves: seq<Leaf>)
    ensures RecordLayouts.GapFree(Place(leaves))
  {
    var fields := Place(leaves);
    forall k | 0 <= k < |fields| && (forall i :: 0 <= i < k ==> fields[i].size > 0)
      ensures fields[k].offset == SizeBefore(fields, k)
    {
      SizesArePlaced(leaves, k);
      assert forall i :: 0 <= i < k ==> leaves[..k][i].size == fields[i].size;
      assert !HasVariable(leaves[..k]);
    }
  }

  /** A fixed leaf is a plain static one. */
  predicate LeafShape(l: Leaf) {
    l.size > 0 ==> l.location.Static?
  }

  lemma {:induction false} FlattenShapes(ps: seq<Property>, lo: nat, hi: nat, prefix: string, is32Bit: bool, depth: nat)
    requires depth <= MAX_STRUCT_DEPTH && Flatten(ps, lo, hi, prefix, is32Bit, depth).Ok?
    ensures forall l :: l in Flatten(ps, lo, hi, prefix, is32Bit, depth).value ==> LeafShape(l)
    decreases MAX_STRUCT_DEPTH - depth, hi - lo
  {
    if lo < hi {
      if ps[lo].isStruct {
        var name := QualifiedName(prefix, ps[lo].name, lo);
        FlattenShapes(ps, ps[lo].structStart, ps[lo].structStart + ps[lo].structCount, name, is32Bit, depth + 1);
      }
      FlattenShapes(ps, lo + 1, hi, prefix, is32Bit, depth);
    }
  }

  lemma {:induction false} SkippableAreWritable(fields: seq<EventField>, k: nat, i: nat)
    requires i < k <= |fields| && SkipsBefore(fields, k).Ok?
    requires fields[i].size > 0 ==> fields[i].location.Static?
    ensures RecordLayouts.Writable(fields[i])
    decreases k
  {
    if i < k - 1 {
      SkippableAreWritable(fields, k - 1, i);
    }
  }

  lemma {:induction false} PrefixSkips(fields: seq<EventField>, n: nat, k: nat)
    requires k <= n <= |fields|
    ensures SkipsBefore(fields[..n], k) == SkipsBefore(fields, k) && SizeBefore(fields[..n], k) == SizeBefore(fields, k)
  {
    if k > 0 {
      PrefixSkips(fields, n, k - 1);
    }
  }

  lemma {:induction false} PrefixGapFree(fields: seq<EventField>, n: nat)
    requires RecordLayouts.GapFree(fields) && n <= |fields|
    ensures RecordLayouts.GapFree(fields[..n])
  {
    var front := fields[..n];
    forall k | 0 <= k < |front| && (forall i :: 0 <= i < k ==> front[i].size > 0)
      ensures front[k].offset == SizeBefore(front, k)
    {
      assert forall i :: 0 <= i < k ==> fields[i] == front[i];
      PrefixSkips(fields, n, k);
    }
  }

  /**
   Whenever the resolver hands out an accessor for a field of a gap-free layout whose sized fields are static,
   the fields before it can all be written, and on any record of them it reads that field's value.
   */
  lemma {:induction false} ReachedFieldsReadRecords(fields: seq<EventField>, k: nat, values: seq<seq<u8>>,
                                                    tail: seq<u8>)
    requires RecordLayouts.GapFree(fields) && k < |fields| && AccessorAt(fields, k).Some?
    requires RecordLayouts.Writable(fields[k])
    requires forall i :: 0 <= i < k && fields[i].size > 0 ==> fields[i].location.Static?
    ensures forall i :: 0 <= i <= k ==> RecordLayouts.Writable(fields[i])
    ensures RecordLayouts.Record(fields[..k + 1], values) ==>
      Access(AccessorAt(fields, k).value, RecordLayouts.Write(fields[..k + 1], values) + tail) == values[k]
  {
    forall i | 0 <= i < k
      ensures RecordLayouts.Writable(fields[i])
    {
      SkippableAreWritable(fields, k, i);
    }
    if RecordLayouts.Record(fields[..k + 1], values) {
      PrefixGapFree(fields, k + 1);
      PrefixAccessor(fields, k + 1, k);
      RecordLayouts.ReadUndoesWrite(fields[..k + 1], values, tail, k);
    }
  }

  lemma {:induction false} PrefixAccessor(fields: seq<EventField>, n: nat, k: nat)
    requires k < n <= |fields|
    ensures AccessorAt(fields[..n], k) == AccessorAt(fields, k)
  {
    PrefixSkips(fields, n, k);
  }

  /** The fields of a walked schema, read at their sequential positions. */
  lemma {:induction false} WalkedFieldsReadRecords(ps: seq<Property>, hi: nat, is32Bit: bool, leaves: seq<Leaf>, k: nat,
                                                   values: seq<seq<u8>>, tail: seq<u8>)
    requires Flatten(ps, 0, hi, "", is32Bit, 0) == Ok(leaves) && k < |leaves|
    requires AccessorAt(Place(leaves), k).Some? && RecordLayouts.Writable(Place(leaves)[k])
    ensures forall i :: 0 <= i <= k ==> RecordLayouts.Writable(Place(leaves)[i])
    ensures RecordLayouts.Record(Place(leaves)[..k + 1], values) ==>
      Access(AccessorAt(Place(leaves), k).value, RecordLayouts.Write(Place(leaves)[..k + 1], values) + tail)
      == values[k]
  {
    FlattenShapes(ps, 0, hi, "", is32Bit, 0);
    PlacedIsGapFree(leaves);
    forall i | 0 <= i < k && Place(leaves)[i].size > 0
      ensures Place(leaves)[i].location.Static?
    {
      assert leaves[i] in leaves;
    }
    ReachedFieldsReadRecords(Place(leaves), k, values, tail);
  }
}
