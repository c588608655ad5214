/** The lazy field resolver: a skip chain that finds a field behind variable-length ones. */
module EventFormats {
  import opened MachineInt
  import opened Outcome

  datatype LocationType =
    | Static
    | StaticString
    | DynRelative
    | DynAbsolute
    | StaticLenPrefixArray
    | StaticUTF16String

  /** A type name is kept as its whitespace-separated words. */
  datatype EventField = EventField(name: string, typeName: seq<string>, location: LocationType, offset: nat, size: nat)

  datatype FieldSkip = FieldSkip(location: LocationType, offset: nat, size: Option<nat>)

  /** The two shapes of closure the resolver returns. */
  datatype Accessor =
    | Direct(offset: nat, size: nat, location: LocationType)
    | Chained(offset: nat, size: nat, location: LocationType, skips: seq<FieldSkip>)

  function ScalarSize(word: string): Option<nat> {
    match word
    case "u8" | "s8" | "char" | "counted_string" | "counted_wstring" | "string" | "wstring" => Some(1)
    case "u16" | "s16" | "short" => Some(2)
    case "u32" | "s32" | "int" => Some(4)
    case "u64" | "s64" | "long" => Some(8)
    case _ => None
  }

  function TryGetElementSize(typeName: seq<string>): Option<nat> {
    var words := if typeName != [] && typeName[0] == "__dyn_array" then typeName[1..] else typeName;
    if words == [] then None
    else if words[0] == "unsigned" then ScalarSize(if |words| > 1 then words[1] else "")
    else ScalarSize(words[0])
  }

  // --- reading one field at a known offset -------------------------------------------------

  /** Bytes before the first NUL, or all of them. */
  function TextLength(s: seq<u8>): (n: nat)
    ensures n <= |s| && (n < |s| ==> s[n] == 0)
    ensures forall i :: 0 <= i < n ==> s[i] != 0
  {
    if s == [] || s[0] == 0 then 0 else 1 + TextLength(s[1..])
  }

  predicate ZeroUnit(s: seq<u8>, i: nat) { i + 1 < |s| && s[i] == 0 && s[i + 1] == 0 }

  /** Bytes before the first zero UTF-16 unit, or of all complete units. */
  function WideLength(s: seq<u8>): (n: nat)
    ensures n <= |s| && n % 2 == 0 && (n + 1 < |s| ==> ZeroUnit(s, n))
  {
    if |s| < 2 || ZeroUnit(s, 0) then 0 else 2 + WideLength(s[2..])
  }

  function ArrayField(size: nat, offset: nat, data: seq<u8>): seq<u8> {
    if offset + 2 > |data| then []
    else
      var bytes := Le16(data[offset..offset + 2]) * (if size == 0 then 1 else size);
      if offset + 2 + bytes > |data| then [] else data[offset + 2..offset + 2 + bytes]
  }

  /** A payload located by the 4-byte descriptor at `offset`: length above, distance from `base` below. */
  function DescribedField(base: nat, offset: nat, data: seq<u8>): seq<u8> {
    if offset + 4 > |data| then []
    else
      var desc := Le32(data[offset..offset + 4]);
      var start := base + desc % TWO_16;
      if start + desc / TWO_16 > |data| then [] else data[start..start + desc / TWO_16]
  }

  function Field(size: nat, location: LocationType, offset: nat, data: seq<u8>): seq<u8> {
    match location
    case Static => if offset + size > |data| then [] else data[offset..offset + size]
    case StaticString => if offset > |data| then [] else data[offset..][..TextLength(data[offset..])]
    case StaticUTF16String => if offset > |data| then [] else data[offset..][..WideLength(data[offset..])]
    case StaticLenPrefixArray => ArrayField(size, offset, data)
    case DynRelative => DescribedField(offset + 4, offset, data)
    case DynAbsolute => DescribedField(0, offset, data)
  }

  /** The loops that count a string's bytes up to its terminator. */
  method CountText(slice: seq<u8>) returns (len: nat)
    ensures len == TextLength(slice)
  {
    len := 0;
    while len < |slice| && slice[len] != 0
      invariant len <= |slice| && TextLength(slice) == len + TextLength(slice[len..])
    {
      assert slice[len..][1..] == slice[len + 1..];
      len := len + 1;
    }
  }

  method CountWide(slice: seq<u8>) returns (len: nat)
    ensures len == WideLength(slice)
  {
    len := 0;
    while len + 1 < |slice| && !(slice[len] == 0 && slice[len + 1] == 0)
      invariant len <= |slice| && WideLength(slice) == len + WideLength(slice[len..])
    {
      assert slice[len..][2..] == slice[len + 2..];
      len := len + 2;
    }
  }

  method GetArray(size: nat, offset: nat, data: seq<u8>) returns (r: seq<u8>)
    ensures r == ArrayField(size, offset, data)
  {
    if offset > |data| || |data[offset..]| < 2 {
      return [];
    }
    var slice := data[offset..];
    assert slice[..2] == data[offset..offset + 2];
    var len := Le16(slice[..2]);
    var elementSize := if size == 0 then 1 else size;
    var bytes := len * elementSize;
    r := if 2 + bytes > |slice| then [] else slice[2..2 + bytes];
  }

  method GetDescribed(relative: bool, offset: nat, data: seq<u8>) returns (r: seq<u8>)
    ensures r == DescribedField(if relative then offset + 4 else 0, offset, data)
  {
    var descEnd := offset + 4;
    if descEnd > |data| {
      return [];
    }
    var desc := Le32(data[offset..descEnd]);
    var base := if relative then descEnd else 0;
    var start := base + desc % TWO_16;
    var end := start + desc / TWO_16;
    r := if end > |data| then [] else data[start..end];
  }

  method GetDataWithOffsetDirect(size: nat, location: LocationType, offset: nat, data: seq<u8>) returns (r: seq<u8>)
    ensures r == Field(size, location, offset, data)
  {
    match location {
      case Static =>
        var end := offset + size;
        r := if end > |data| then [] else data[offset..end];
      case StaticString =>
        if offset > |data| {
          return [];
        }
        var len := CountText(data[offset..]);
        r := data[offset..][..len];
      case StaticUTF16String =>
        if offset > |data| {
          return [];
        }
        var len := CountWide(data[offset..]);
        r := data[offset..][..len];
      case StaticLenPrefixArray =>
        r := GetArray(size, offset, data);
      case DynRelative =>
        r := GetDescribed(true, offset, data);
      case DynAbsolute =>
        r := GetDescribed(false, offset, data);
    }
  }

  // --- the skip chain ------------------------------------------------------------------------

  /** Bytes a skipped string takes, its terminator included when there is one. */
  function TextExtent(s: seq<u8>): nat {
    if TextLength(s) < |s| then TextLength(s) + 1 else |s|
  }

  function WideExtent(s: seq<u8>): nat {
    if WideLength(s) + 1 < |s| then WideLength(s) + 2 else WideLength(s)
  }

  /** Bytes a skipped array takes: its u16 count, then that many elements. */
  function ArrayExtent(elementSize: Option<nat>, count: nat): nat {
    2 + (if elementSize.Some? then elementSize.value * count else 0)
  }

  /** The chain's offset after one more skip; None where it gives up. */
  function SkipOver(skip: FieldSkip, skipped: nat, data: seq<u8>): Option<nat> {
    var start := skipped + skip.offset;
    if start > |data| then None
    else
      match skip.location
      case StaticString => Some(skipped + TextExtent(data[start..]))
      case StaticUTF16String => Some(skipped + WideExtent(data[start..]))
      case StaticLenPrefixArray =>
        if start + 2 > |data| then None
        else Some(skipped + ArrayExtent(skip.size, Le16(data[start..start + 2])))
      case _ => None
  }

  function SkipAll(skips: seq<FieldSkip>, data: seq<u8>): Option<nat> {
    if skips == [] then Some(0)
    else
      match SkipAll(skips[..|skips| - 1], data)
      case None => None
      case Some(skipped) => SkipOver(skips[|skips| - 1], skipped, data)
  }

  function Access(a: Accessor, data: seq<u8>): seq<u8> {
    match a
    case Direct(offset, size, location) => Field(size, location, offset, data)
    case Chained(offset, size, location, skips) =>
      match SkipAll(skips, data)
      case None => []
      case Some(skipped) => Field(size, location, offset + skipped, data)
  }

  method Skip(skip: FieldSkip, skipped: nat, data: seq<u8>) returns (r: Option<nat>)
    ensures r == SkipOver(skip, skipped, data)
  {
    var start := skipped + skip.offset;
    if start > |data| {
      return None;
    }
    match skip.location {
      case StaticString =>
        var len := CountText(data[start..]);
        return Some(skipped + (if start + len < |data| then len + 1 else len));
      case StaticUTF16String =>
        var len := CountWide(data[start..]);
        return Some(skipped + (if start + len + 1 < |data| then len + 2 else len));
      case StaticLenPrefixArray =>
        if |data| - start < 2 {
          return None;
        }
        var len := Le16(data[start..start + 2]);
        return Some(skipped + ArrayExtent(skip.size, len));
      case _ =>
        return None;
    }
  }

  /** get_field_data_closure: the chain in a loop, then the direct read. */
  method GetFieldDataClosure(offset: nat, size: nat, location: LocationType, skips: seq<FieldSkip>, data: seq<u8>)
    returns (r: seq<u8>)
    ensures r == Access(Chained(offset, size, location, skips), data)
  {
    var skipOffset := 0;
    var i := 0;
    while i < |skips|
      invariant i <= |skips| && SkipAll(skips[..i], data) == Some(skipOffset)
    {
      assert skips[..i + 1][..i] == skips[..i];
      var next := Skip(skips[i], skipOffset, data);
      i := i + 1;
      if next.None? {
        GivesUp(skips, i, data);
        return [];
      }
      skipOffset := next.value;
    }
    assert skips[..i] == skips;
    r := GetDataWithOffsetDirect(size, location, offset + skipOffset, data);
  }

  lemma {:induction false} GivesUp(skips: seq<FieldSkip>, k: nat, data: seq<u8>)
    requires k <= |skips| && SkipAll(skips[..k], data).None?
    ensures SkipAll(skips, data).None?
    decreases |skips| - k
  {
    if k == |skips| {
      assert skips[..k] == skips;
    } else {
      assert skips[..k + 1][..k] == skips[..k];
      GivesUp(skips, k + 1, data);
    }
  }

  // --- building an accessor --------------------------------------------------------------------

  function SizeBefore(fields: seq<EventField>, k: nat): nat
    requires k <= |fields|
  {
    if k == 0 then 0 else SizeBefore(fields, k - 1) + fields[k - 1].size
  }

  /** The skip a field contributes to the chain of later fields: none if fixed; a failure if it cannot be skipped. */
  function SkipFor(f: EventField, offset: nat): Result<seq<FieldSkip>> {
    if f.size != 0 then Ok([])
    else
      match f.location
      case StaticString | StaticUTF16String => Ok([FieldSkip(f.location, offset, None)])
      case StaticLenPrefixArray =>
        var e := TryGetElementSize(f.typeName);
        if e.None? then Err(Rejected) else Ok([FieldSkip(f.location, offset, e)])
      case _ => Err(Rejected)
  }

  function SkipsBefore(fields: seq<EventField>, k: nat): Result<seq<FieldSkip>>
    requires k <= |fields|
  {
    if k == 0 then Ok([])
    else
      var before :- SkipsBefore(fields, k - 1);
      var skip :- SkipFor(fields[k - 1], SizeBefore(fields, k - 1));
      Ok(before + skip)
  }

  /** The read size of the field itself: an array without one takes its element size. */
  function ReadSize(f: EventField): Option<nat> {
    if f.size == 0 && f.location == StaticLenPrefixArray then TryGetElementSize(f.typeName) else Some(f.size)
  }

  predicate FirstNamed(fields: seq<EventField>, name: string, k: nat) {
    k < |fields| && fields[k].name == name && forall i :: 0 <= i < k ==> fields[i].name != name
  }

  function AccessorAt(fields: seq<EventField>, k: nat): Option<Accessor>
    requires k < |fields|
  {
    match SkipsBefore(fields, k)
    case Err(_) => None
    case Ok(skips) =>
      match ReadSize(fields[k])
      case None => None
      case Some(size) =>
        if skips == [] then Some(Direct(fields[k].offset, size, fields[k].location))
        else Some(Chained(SizeBefore(fields, k), size, fields[k].location, skips))
  }

  /** try_get_field_data_closure: the accessor of the first field of that name, if it can be reached. */
  method TryGetFieldDataClosure(fields: seq<EventField>, name: string) returns (r: Option<Accessor>)
    ensures forall k :: FirstNamed(fields, name, k) ==> r == AccessorAt(fields, k)
    ensures (forall k :: 0 <= k < |fields| ==> fields[k].name != name) ==> r == None
  {
    var offset := 0;
    var skips: seq<FieldSkip> := [];
    var i := 0;
    while i < |fields|
      invariant i <= |fields| && offset == SizeBefore(fields, i) && SkipsBefore(fields, i) == Ok(skips)
      invariant forall j :: 0 <= j < i ==> fields[j].name != name
    {
      var field := fields[i];
      if field.name == name {
        var size := SizeToRead(field);
        if size.None? {
          return None;
        }
        if skips == [] {
          return Some(Direct(field.offset, size.value, field.location));
        }
        return Some(Chained(offset, size.value, field.location, skips));
      }
      var more := WithSkip(skips, field, offset);
      if more.Err? {
        StaysUnreachable(fields, i + 1);
        return None;
      }
      skips := more.value;
      offset := offset + field.size;
      i := i + 1;
    }
    return None;
  }

  method SizeToRead(field: EventField) returns (r: Option<nat>)
    ensures r == ReadSize(field)
  {
    if field.size == 0 && field.location == StaticLenPrefixArray {
      return TryGetElementSize(field.typeName);
    }
    return Some(field.size);
  }

  /** The chain so far with the skip over one more field, if that can be skipped. */
  method WithSkip(skips: seq<FieldSkip>, field: EventField, offset: nat) returns (r: Result<seq<FieldSkip>>)
    ensures r == match SkipFor(field, offset)
                 case Err(e) => Err(e)
                 case Ok(skip) => Ok(skips + skip)
  {
    r := Ok(skips + []);
    if field.size == 0 {
      match field.location {
        case StaticString =>
          r := Ok(skips + [FieldSkip(field.location, offset, None)]);
        case StaticUTF16String =>
          r := Ok(skips + [FieldSkip(field.location, offset, None)]);
        case StaticLenPrefixArray =>
          var elementSize := TryGetElementSize(field.typeName);
          if elementSize.None? {
            return Err(Rejected);
          }
          r := Ok(skips + [FieldSkip(field.location, offset, elementSize)]);
        case _ =>
          return Err(Rejected);
      }
    }
  }

  lemma {:induction false} StaysUnreachable(fields: seq<EventField>, k: nat)
    requires k <= |fields| && SkipsBefore(fields, k).Err?
    ensures forall j :: k <= j <= |fields| ==> SkipsBefore(fields, j).Err?
    decreases |fields| - k
  {
    if k < |fields| {
      assert SkipsBefore(fields, k + 1).Err?;
      StaysUnreachable(fields, k + 1);
    }
  }
}
