/** The field-metadata parser of .NET event streams. */
module Nettrace {
  import opened MachineInt
  import opened Outcome
  import opened EventFormats

  datatype FieldType = FieldType(word: string, size: nat)

  const TYPE_OBJECT: nat := 1
  const TYPE_ARRAY: nat := 19
  const MAX_DEPTH: nat := 32

  function TypeOf(code: nat): Option<FieldType> {
    match code
    case 1 => Some(FieldType("object", 0))
    case 3 => Some(FieldType("u32", 4))
    case 4 => Some(FieldType("u16", 2))
    case 5 => Some(FieldType("s8", 1))
    case 6 => Some(FieldType("u8", 1))
    case 7 => Some(FieldType("s16", 2))
    case 8 => Some(FieldType("u16", 2))
    case 9 => Some(FieldType("s32", 4))
    case 10 => Some(FieldType("u32", 4))
    case 11 => Some(FieldType("s64", 8))
    case 12 => Some(FieldType("u64", 8))
    case 13 => Some(FieldType("float", 4))
    case 14 => Some(FieldType("double", 8))
    case 16 => Some(FieldType("u8", 16))
    case 17 => Some(FieldType("u8", 16))
    case 18 => Some(FieldType("string", 0))
    case 19 => Some(FieldType("array", 0))
    case _ => None
  }

  function ReadInt(data: seq<u8>): Option<nat> {
    if |data| < 4 then None else Some(Le32(data[..4]))
  }

  function ParseType(data: seq<u8>): Option<FieldType> {
    match ReadInt(data)
    case None => None
    case Some(code) => TypeOf(code)
  }

  /** One UTF-16 unit as a character; half of a surrogate pair becomes a question mark. */
  function UnitChar(unit: u16): char {
    if 0xD800 <= unit < 0xE000 then '?' else unit as char
  }

  /** A NUL-terminated UTF-16 string and what follows it. */
  function StringAt(data: seq<u8>): (seq<u8>, string) {
    if |data| < 2 then (data, "")
    else
      var unit := Le16(data[..2]);
      if unit == 0 then (data[2..], "")
      else
        var (rest, s) := StringAt(data[2..]);
        (rest, [UnitChar(unit)] + s)
  }

  /** The field append_field adds to a format. */
  function NextField(format: seq<EventField>, name: string, typeName: seq<string>, size: nat): EventField {
    var offset := if format == [] then 0 else format[|format| - 1].offset + format[|format| - 1].size;
    var location :=
      if typeName == ["string"] then StaticUTF16String
      else if typeName != [] && typeName[0] == "__dyn_array" then StaticLenPrefixArray
      else Static;
    EventField(name, typeName, location, offset, size)
  }

  /** What an object starts with: nothing usable, or a field count and whether the V2 layout follows. */
  datatype Header = NoFields | Fields(rest: seq<u8>, count: nat, v2: bool)

  function HeaderAt(data: seq<u8>): Header {
    match ReadInt(data)
    case None => NoFields
    case Some(count) =>
      var rest := data[4..];
      if count != 0 then Fields(rest, count, false)
      else
        match ReadInt(rest)
        case None => Fields(rest, 0, false)
        case Some(bytes) =>
          var params := rest[4..];
          if bytes == 0 || params == [] || params[0] != 2 then NoFields
          else
            match ReadInt(params[1..])
            case None => Fields(params[1..], 0, false)
            case Some(count) => Fields(params[5..], count, true)
  }

  /** How one turn of the field loop ends: with the next field, by leaving the loop, or by giving up on the object. */
  datatype Turn =
    | More(rest: seq<u8>, format: seq<EventField>)
    | Leave(rest: seq<u8>, format: seq<EventField>)
    | GiveUp(format: seq<EventField>)

  function Height(depth: nat): nat { if depth > MAX_DEPTH then 0 else MAX_DEPTH + 1 - depth }

  function ParseObject(data: seq<u8>, format: seq<EventField>, depth: nat): (seq<u8>, seq<EventField>)
    decreases Height(depth), 2, 0
  {
    if depth > MAX_DEPTH then ([], format)
    else
      match HeaderAt(data)
      case NoFields => ([], format)
      case Fields(rest, count, v2) => ParseFields(rest, format, depth, count, v2)
  }

  function ParseFields(data: seq<u8>, format: seq<EventField>, depth: nat, count: nat, v2: bool): (seq<u8>,
                       seq<EventField>)
    requires depth <= MAX_DEPTH
    decreases Height(depth), 1, count
  {
    if count == 0 then (data, format)
    else
      match ParseField(data, format, depth, v2)
      case More(rest, format') => ParseFields(rest, format', depth, count - 1, v2)
      case Leave(rest, format') => (rest, format')
      case GiveUp(format') => ([], format')
  }

  function ParseField(data: seq<u8>, format: seq<EventField>, depth: nat, v2: bool): Turn
    requires depth <= MAX_DEPTH
    decreases Height(depth), 0, 1
  {
    if !v2 then ParseTyped(data, format, depth, None, "")
    else
      match ReadInt(data)
      case None => Leave(data, format)
      case Some(size) =>
        if size > |data| then Leave(data, format)
        else
          var (rest, name) := StringAt(data[4..]);
          ParseTyped(rest, format, depth, Some(data[size..]), name)
  }

  /** A field from its type on; `next` is where a V2 field says it ends. */
  function ParseTyped(data: seq<u8>, format: seq<EventField>, depth: nat, next: Option<seq<u8>>, name: string): Turn
    requires depth <= MAX_DEPTH
    decreases Height(depth), 0, 0
  {
    match ParseType(data)
    case None => Leave(data, format)
    case Some(t) =>
      var rest := data[4..];
      if t.word == "object" then
        var (inner, format') := ParseObject(rest, format, depth + 1);
        More(if next.Some? then next.value else StringAt(inner).0, format')
      else if t.word == "array" then
        match ParseType(rest)
        case None => Leave(rest, format)
        case Some(e) =>
          if e.word == "object" || e.word == "array" then GiveUp(format)
          else
            More(if next.Some? then next.value else rest[4..],
                 format + [NextField(format, name, ["__dyn_array", e.word], 0)])
      else
        var (after, own) := if next.Some? then (next.value, name) else StringAt(rest);
        More(after, format + [NextField(format, own, [t.word], t.size)])
  }

  // --- the parser -----------------------------------------------------------------------------

  method ReadString(data: seq<u8>) returns (rest: seq<u8>, output: string)
    ensures rest == StringAt(data).0 && output == StringAt(data).1
  {
    output := "";
    var offset := 0;
    assert data[0..] == data;
    while offset + 1 < |data|
      invariant offset <= |data|
      invariant StringAt(data).0 == StringAt(data[offset..]).0
      invariant StringAt(data).1 == output + StringAt(data[offset..]).1
    {
      var unit := Le16(data[offset..offset + 2]);
      assert data[offset..][..2] == data[offset..offset + 2] && data[offset..][2..] == data[offset + 2..];
      offset := offset + 2;
      if unit == 0 {
        return data[offset..], output;
      }
      output := output + [UnitChar(unit)];
    }
    rest := data[offset..];
  }

  class EventFormat {
    var fields: seq<EventField>

    constructor ()
      ensures fields == []
    {
      fields := [];
    }

    method AppendField(name: string, typeName: seq<string>, size: nat)
      modifies this
      ensures fields == old(fields) + [NextField(old(fields), name, typeName, size)]
    {
      var offset := 0;
      if fields != [] {
        var last := fields[|fields| - 1];
        offset := last.offset + last.size;
      }
      var location := Static;
      if typeName == ["string"] {
        location := StaticUTF16String;
      } else if typeName != [] && typeName[0] == "__dyn_array" {
        location := StaticLenPrefixArray;
      }
      fields := fields + [EventField(name, typeName, location, offset, size)];
    }
  }

  method ParseHeader(data: seq<u8>) returns (h: Header)
    ensures h == HeaderAt(data)
  {
    var fields := data;
    var count := ReadInt(fields);
    if count.None? {
      return NoFields;
    }
    fields := fields[4..];
    if count.value != 0 {
      return Fields(fields, count.value, false);
    }
    var bytes := ReadInt(fields);
    if bytes.None? {
      return Fields(fields, 0, false);
    }
    fields := fields[4..];
    if bytes.value == 0 || |fields| == 0 {
      return NoFields;
    }
    var tag := fields[0];
    fields := fields[1..];
    if tag != 2 {
      return NoFields;
    }
    var newCount := ReadInt(fields);
    if newCount.None? {
      return Fields(fields, 0, false);
    }
    return Fields(fields[4..], newCount.value, true);
  }

  /** parse_object: consumes the object's bytes and adds its leaves to the format. */
  method Parse(data: seq<u8>, format: EventFormat, depth: nat) returns (rest: seq<u8>)
    modifies format
    ensures (rest, format.fields) == ParseObject(data, old(format.fields), depth)
    decreases Height(depth), 1
  {
    if depth > MAX_DEPTH {
      return [];
    }
    var header := ParseHeader(data);
    if header.NoFields? {
      return [];
    }
    var fields, count := header.rest, header.count;
    while count > 0
      invariant ParseFields(header.rest, old(format.fields), depth, header.count, header.v2)
             == ParseFields(fields, format.fields, depth, count, header.v2)
    {
      var turn := ParseOne(fields, format, depth, header.v2);
      match turn {
        case More(after, _) =>
          fields := after;
        case Leave(after, _) =>
          return after;
        case GiveUp(_) =>
          return [];
      }
      count := count - 1;
    }
    rest := fields;
  }

  /** One turn of the loop, for both layouts. */
  method ParseOne(data: seq<u8>, format: EventFormat, depth: nat, v2: bool) returns (t: Turn)
    requires depth <= MAX_DEPTH
    modifies format
    ensures t == ParseField(data, old(format.fields), depth, v2) && format.fields == t.format
    decreases Height(depth), 0
  {
    var fields, name, next := data, "", None;
    if v2 {
      var size := ReadInt(fields);
      if size.None? || size.value > |fields| {
        return Leave(fields, format.fields);
      }
      next := Some(fields[size.value..]);
      fields, name := ReadString(fields[4..]);
    }
    var fieldType := ParseType(fields);
    if fieldType.None? {
      return Leave(fields, format.fields);
    }
    fields := fields[4..];
    if fieldType.value.word == "object" {
      fields := Parse(fields, format, depth + 1);
      if !v2 {
        fields, name := ReadString(fields);
      }
    } else if fieldType.value.word == "array" {
      var element := ParseType(fields);
      if element.None? {
        return Leave(fields, format.fields);
      }
      fields := fields[4..];
      if element.value.word == "object" || element.value.word == "array" {
        return GiveUp(format.fields);
      }
      format.AppendField(name, ["__dyn_array", element.value.word], 0);
    } else {
      if !v2 {
        fields, name := ReadString(fields);
      }
      format.AppendField(name, [fieldType.value.word], fieldType.value.size);
    }
    return More(if next.Some? then next.value else fields, format.fields);
  }
}
