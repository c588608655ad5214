/** The type tables of the two schema parsers and the resolver, against what the types are. */
module TypeTables {
  import opened MachineInt
  import opened Outcome
  import opened EventFormats
  import Nettrace
  import Tdh

  // --- what types are -----------------------------------------------------------------------------

  /** Types by what a value of theirs is made of. */
  datatype Shape =
    | Integer(signed: bool, bits: nat)
    | Real(single: bool)
    | Opaque(word: string, bytes: nat)
    | Text(wide: bool, counted: bool)
    | NoSize(name: string)

  /** An integer's word: its sign and its width in bits. */
  function IntWord(signed: bool, bits: nat): string { (if signed then "s" else "u") + Tdh.Decimal(bits) }

  function WordOf(s: Shape): string {
    match s
    case Integer(signed, bits) => IntWord(signed, bits)
    case Real(single) => if single then "float" else "double"
    case Opaque(word, _) => word
    case Text(wide, counted) => (if counted then "counted_" else "") + (if wide then "wstring" else "string")
    case NoSize(name) => name
  }

  function BytesOf(s: Shape): nat {
    match s
    case Integer(_, bits) => bits / 8
    case Real(single) => if single then 4 else 8
    case Opaque(_, bytes) => bytes
    case Text(_, _) => 0
    case NoSize(_) => 0
  }

  function LocationOf(s: Shape): LocationType {
    match s
    case Text(wide, counted) =>
      if counted then StaticLenPrefixArray else if wide then StaticUTF16String else StaticString
    case _ => Static
  }

  lemma {:induction false} IntWords(signed: bool)
    ensures IntWord(signed, 8) == (if signed then "s8" else "u8")
    ensures IntWord(signed, 16) == (if signed then "s16" else "u16")
    ensures IntWord(signed, 32) == (if signed then "s32" else "u32")
    ensures IntWord(signed, 64) == (if signed then "s64" else "u64")
  {
    assert Tdh.Decimal(8) == "8";
    assert Tdh.Decimal(16) == Tdh.Decimal(1) + [Tdh.Digit(6)] == "16";
    assert Tdh.Decimal(32) == Tdh.Decimal(3) + [Tdh.Digit(2)] == "32";
    assert Tdh.Decimal(64) == Tdh.Decimal(6) + [Tdh.Digit(4)] == "64";
  }

  // --- .NET type codes ----------------------------------------------------------------------------

  /** The .NET codes: from 5 on the integers in pairs, signed first, each pair twice as wide as the one before. */
  function ShapeOfCode(code: nat): Option<Shape> {
    if 5 <= code <= 12 then Some(Integer(code % 2 == 1, 8 * Pow2((code - 5) / 2)))
    else if code == 13 || code == 14 then Some(Real(code == 13))
    else if code == 3 then Some(Integer(false, 32))
    else if code == 4 then Some(Integer(false, 16))
    else if code == 16 || code == 17 then Some(Opaque("u8", 16))
    else if code == 18 then Some(NoSize("string"))
    else if code == 1 then Some(NoSize("object"))
    else if code == 19 then Some(NoSize("array"))
    else None
  }

  lemma {:induction false} SmallPowers()
    ensures Pow2(0) == 1 && Pow2(1) == 2 && Pow2(2) == 4 && Pow2(3) == 8
  {
    assert Pow2(1) == 2 * Pow2(0) && Pow2(2) == 2 * Pow2(1) && Pow2(3) == 2 * Pow2(2);
  }

  /** The parser's entry for a code is that of a type. */
  predicate Lists(code: nat, s: Option<Shape>) {
    Nettrace.TypeOf(code) == if s.None? then None else Some(Nettrace.FieldType(WordOf(s.value), BytesOf(s.value)))
  }

  /** The parser's table has the codes of the known types, with their words and sizes. */
  lemma {:induction false} CodesAreTypes(code: nat)
    ensures Lists(code, ShapeOfCode(code))
  {
    if 5 <= code <= 12 {
      IntegerCode(code, (code - 5) / 2, Pow2((code - 5) / 2));
    } else if code == 3 || code == 4 {
      OldCode(code);
    } else {
      OtherCode(code);
    }
  }

  lemma {:induction false} OtherCode(code: nat)
    requires code < 3 || code > 12
    ensures Lists(code, ShapeOfCode(code))
  {
  }

  lemma {:induction false} OldCode(code: nat)
    requires code == 3 || code == 4
    ensures Lists(code, Some(Integer(false, if code == 3 then 32 else 16)))
  {
    IntWords(false);
  }

  lemma {:induction false} IntegerCode(code: nat, pair: nat, bytes: nat)
    requires 5 <= code <= 12 && pair == (code - 5) / 2 && bytes == Pow2(pair)
    ensures Lists(code, Some(Integer(code % 2 == 1, 8 * bytes)))
  {
    SmallPowers();
    IntWords(code % 2 == 1);
    assert code == 5 + 2 * pair || code == 6 + 2 * pair;
  }

  // --- ETW in-types ---------------------------------------------------------------------------------

  function ShapeOf(t: Tdh.InType, is32Bit: bool): Shape {
    match t
    case Int8 => Integer(true, 8)
    case UInt8 => Integer(false, 8)
    case Int16 => Integer(true, 16)
    case UInt16 => Integer(false, 16)
    case Int32 | HexInt32 => Integer(true, 32)
    case UInt32 | Boolean => Integer(false, 32)
    case Int64 | HexInt64 => Integer(true, 64)
    case UInt64 => Integer(false, 64)
    case Float => Real(true)
    case Double => Real(false)
    case Pointer => Opaque("pointer", if is32Bit then 4 else 8)
    case FileTime => Opaque("filetime", 8)
    case SystemTime => Opaque("systemtime", 8 * 2)
    case Guid => Opaque("guid", 4 + 2 + 2 + 8)
    case AnsiString | ReversedCountedAnsiString | NonNullTerminatedAnsiString => Text(false, false)
    case UnicodeString | ReversedCountedString | NonNullTerminatedString => Text(true, false)
    case CountedString => Text(true, true)
    case CountedAnsiString => Text(false, true)
    case Sid | Binary => NoSize("binary")
    case Unknown => NoSize("unsupported")
  }

  lemma {:induction false} InTypesAreTypes(t: Tdh.InType, is32Bit: bool)
    ensures var s := ShapeOf(t, is32Bit); Tdh.FieldInfo(t, is32Bit) == (WordOf(s), LocationOf(s), BytesOf(s))
  {
    var s := ShapeOf(t, is32Bit);
    if s.Integer? {
      IntWords(s.signed);
    } else if s.Text? {
      TextWords(s);
    }
  }

  lemma {:induction false} TextWords(s: Shape)
    requires s.Text?
    ensures WordOf(s) == if s.counted then (if s.wide then "counted_wstring" else "counted_string")
                         else if s.wide then "wstring" else "string"
  {
    assert "counted_" + "wstring" == "counted_wstring" && "counted_" + "string" == "counted_string";
    assert "" + "wstring" == "wstring" && "" + "string" == "string";
  }

  /**
   The leaf of a property: nothing readable for an array; as many bytes as the schema says if it says so of a type
   that is no text; else what the type is.
   */
  lemma {:induction false} LeafIs(p: Tdh.Property, name: string, is32Bit: bool)
    ensures var (s, leaf) := (ShapeOf(p.inType, is32Bit), Tdh.LeafOf(p, name, is32Bit));
      && leaf.name == name
      && (p.paramCount && p.count != 1 ==> leaf == Tdh.Leaf(name, ["unsupported"], Static, 0))
      && (!(p.paramCount && p.count != 1) ==>
            && leaf.typeName == [WordOf(s)]
            && (if s.Text? || p.paramLength || p.length == 0 then
                  leaf.location == LocationOf(s) && leaf.size == BytesOf(s)
                else leaf.location == Static && leaf.size == p.length))
  {
    InTypesAreTypes(p.inType, is32Bit);
    InTypesAreTypes(p.inType, false);
  }

  // --- elements of arrays ---------------------------------------------------------------------------

  /** The C names of integers, with the widths they have on 64-bit Linux. */
  function NamedBits(word: string): Option<nat> {
    match word
    case "char" => Some(8)
    case "short" => Some(16)
    case "int" => Some(32)
    case "long" => Some(64)
    case _ => None
  }

  predicate IsText(word: string) {
    word == "string" || word == "wstring" || word == "counted_string" || word == "counted_wstring"
  }

  predicate IsIntWord(word: string, bits: nat) { word == IntWord(true, bits) || word == IntWord(false, bits) }

  predicate IsWidth(bits: nat) { bits == 8 || bits == 16 || bits == 32 || bits == 64 }

  /** An element is an integer of some width, or a byte of a text. */
  predicate IsElement(word: string, bytes: nat) {
    || (IsText(word) && bytes == 1)
    || NamedBits(word) == Some(8 * bytes)
    || (IsWidth(8 * bytes) && IsIntWord(word, 8 * bytes))
  }

  lemma {:induction false} IntWordIs(word: string, bits: nat)
    requires IsWidth(bits)
    ensures IsIntWord(word, bits)
      <==> (word == (if bits == 8 then "s8" else if bits == 16 then "s16" else if bits == 32 then "s32" else "s64")
            || word == (if bits == 8 then "u8" else if bits == 16 then "u16" else if bits == 32 then "u32" else "u64"))
  {
    IntWords(true);
    IntWords(false);
  }

  /** In a type name the word that counts may stand behind a marker of arrays, and behind `unsigned`. */
  lemma {:induction false} ElementWordIs(word: string, more: seq<string>)
    requires word != "__dyn_array" && word != "unsigned"
    ensures TryGetElementSize([word] + more) == ScalarSize(word)
    ensures TryGetElementSize(["unsigned", word] + more) == ScalarSize(word)
    ensures TryGetElementSize(["__dyn_array", word] + more) == ScalarSize(word)
    ensures TryGetElementSize(["__dyn_array", "unsigned", word] + more) == ScalarSize(word)
  {
    assert (["__dyn_array", word] + more)[1..] == [word] + more;
    assert (["__dyn_array", "unsigned", word] + more)[1..] == ["unsigned", word] + more;
  }

  lemma {:induction false} NoElementWord()
    ensures TryGetElementSize([]) == None && TryGetElementSize(["__dyn_array"]) == None
    ensures TryGetElementSize(["unsigned"]) == None && TryGetElementSize(["__dyn_array", "unsigned"]) == None
  {
    assert ["__dyn_array", "unsigned"][1..] == ["unsigned"];
  }

  /** Behind a field there can be others: it has a size, or its extent can be told from the data. */
  predicate CanBeSkipped(f: EventField) {
    f.size > 0 || f.location.StaticString? || f.location.StaticUTF16String?
    || (f.location.StaticLenPrefixArray? && TryGetElementSize(f.typeName).Some?)
  }

  /** There is an accessor exactly when all fields before can be skipped, and an array's own elements are known. */
  lemma {:induction false} ReachedIff(fields: seq<EventField>, k: nat)
    requires k < |fields|
    ensures AccessorAt(fields, k).Some?
      <==> ((forall i :: 0 <= i < k ==> CanBeSkipped(fields[i]))
            && (fields[k].size == 0 && fields[k].location.StaticLenPrefixArray? ==>
                  TryGetElementSize(fields[k].typeName).Some?))
  {
    SkipsIff(fields, k);
  }

  lemma {:induction false} SkipsIff(fields: seq<EventField>, k: nat)
    requires k <= |fields|
    ensures SkipsBefore(fields, k).Ok? <==> forall i :: 0 <= i < k ==> CanBeSkipped(fields[i])
  {
    if k > 0 {
      SkipsIff(fields, k - 1);
    }
  }

  /** The resolver knows the elements of arrays that there are, and nothing else. */
  lemma {:induction false} ElementsAre(word: string, bytes: nat)
    ensures ScalarSize(word) == Some(bytes) <==> IsElement(word, bytes)
  {
    if IsWidth(8 * bytes) {
      IntWordIs(word, 8 * bytes);
      assert bytes == 1 || bytes == 2 || bytes == 4 || bytes == 8;
    }
  }
}
