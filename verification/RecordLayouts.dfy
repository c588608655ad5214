/** A sequential writer of event payloads, undone by the lazy resolver. */
module RecordLayouts {
  import opened MachineInt
  import opened Outcome
  import opened EventFormats

  /** Fields the resolver supports: sized ones, strings, and counted arrays of a known element size. */
  predicate Writable(f: EventField) {
    match f.location
    case Static => f.size > 0
    case StaticString | StaticUTF16String => f.size == 0
    case StaticLenPrefixArray => f.size == 0 && TryGetElementSize(f.typeName).Some?
    case _ => false
  }

  function ElementSize(f: EventField): nat
    requires Writable(f) && f.location.StaticLenPrefixArray?
    ensures ElementSize(f) >= 1
  {
    TryGetElementSize(f.typeName).value
  }

  /** Values a field can carry: exact size, no terminator inside, whole elements and a 16-bit count. */
  predicate Fits(f: EventField, v: seq<u8>)
    requires Writable(f)
  {
    match f.location
    case Static => |v| == f.size
    case StaticString => forall i :: 0 <= i < |v| ==> v[i] != 0
    case StaticUTF16String => |v| % 2 == 0 && forall i :: 0 <= i < |v| && i % 2 == 0 ==> !ZeroUnit(v, i)
    case StaticLenPrefixArray => |v| % ElementSize(f) == 0 && |v| / ElementSize(f) < TWO_16
  }

  function Encode(f: EventField, v: seq<u8>): seq<u8>
    requires Writable(f) && Fits(f, v)
  {
    match f.location
    case Static => v
    case StaticString => v + [0]
    case StaticUTF16String => v + [0, 0]
    case StaticLenPrefixArray => Bytes16(|v| / ElementSize(f)) + v
  }

  predicate Record(fields: seq<EventField>, values: seq<seq<u8>>) {
    |fields| == |values| && forall i :: 0 <= i < |fields| ==> Writable(fields[i]) && Fits(fields[i], values[i])
  }

  function Concat(parts: seq<seq<u8>>, k: nat): seq<u8>
    requires k <= |parts|
  {
    if k == 0 then [] else Concat(parts, k - 1) + parts[k - 1]
  }

  /** What the writer lays down: one encoding per field, in order. */
  function Encodings(fields: seq<EventField>, values: seq<seq<u8>>): seq<seq<u8>>
    requires Record(fields, values)
  {
    seq(|fields|, i requires 0 <= i < |fields| => Encode(fields[i], values[i]))
  }

  function Write(fields: seq<EventField>, values: seq<seq<u8>>): seq<u8>
    requires Record(fields, values)
  {
    Concat(Encodings(fields, values), |fields|)
  }

  /** Field offsets are the running sum of sizes up to and including the first variable-length field. */
  predicate GapFree(fields: seq<EventField>) {
    forall k :: 0 <= k < |fields| && (forall i :: 0 <= i < k ==> fields[i].size > 0) ==>
      fields[k].offset == SizeBefore(fields, k)
  }

  lemma {:induction false} ConcatSplits(parts: seq<seq<u8>>, k: nat, n: nat, tail: seq<u8>) returns (rest: seq<u8>)
    requires k < n <= |parts|
    ensures Concat(parts, n) + tail == Concat(parts, k) + parts[k] + rest
    decreases n
  {
    if n == k + 1 {
      rest := tail;
    } else {
      rest := ConcatSplits(parts, k, n - 1, parts[n - 1] + tail);
      assert Concat(parts, n) + tail == Concat(parts, n - 1) + (parts[n - 1] + tail);
    }
  }

  lemma {:induction false} TextLengthIs(s: seq<u8>, n: nat)
    requires n < |s| && s[n] == 0 && forall i :: 0 <= i < n ==> s[i] != 0
    ensures TextLength(s) == n
  {
  }

  lemma {:induction false} WideLengthIs(s: seq<u8>, n: nat)
    requires ZeroUnit(s, n) && n % 2 == 0 && forall i :: 0 <= i < n && i % 2 == 0 ==> !ZeroUnit(s, i)
    ensures WideLength(s) == n
  {
    if n > 0 {
      assert !ZeroUnit(s, 0);
      forall i | 0 <= i < n - 2 && i % 2 == 0
        ensures !ZeroUnit(s[2..], i)
      {
        assert !ZeroUnit(s, i + 2);
      }
      WideLengthIs(s[2..], n - 2);
    }
  }

  /** The encoding of a string field, seen from its start. */
  lemma {:induction false} StringAt(f: EventField, v: seq<u8>, rest: seq<u8>)
    requires Writable(f) && Fits(f, v) && (f.location.StaticString? || f.location.StaticUTF16String?)
    ensures var s := Encode(f, v) + rest;
      s[..|v|] == v
      && (f.location.StaticString? ==> TextLength(s) == |v| && |v| < |s|)
      && (f.location.StaticUTF16String? ==> WideLength(s) == |v| && |v| + 1 < |s|)
  {
    var s := Encode(f, v) + rest;
    if f.location.StaticString? {
      TextLengthIs(s, |v|);
    } else {
      forall i | 0 <= i < |v| && i % 2 == 0
        ensures !ZeroUnit(s, i)
      {
        assert !ZeroUnit(v, i);
      }
      WideLengthIs(s, |v|);
    }
  }

  lemma {:induction false} WholeElements(n: nat, e: nat)
    requires e >= 1 && n % e == 0
    ensures e * (n / e) == n
  {
  }

  lemma {:induction false} Slices(before: seq<u8>, x: seq<u8>, y: seq<u8>, rest: seq<u8>, data: seq<u8>)
    requires data == before + (x + y) + rest
    ensures |before| + |x| + |y| <= |data|
    ensures data[|before|..|before| + |x|] == x && data[|before| + |x|..|before| + |x| + |y|] == y
  {
  }

  /** A counted array, seen from its start: its count, and as many bytes as that many elements take. */
  lemma {:induction false} ArrayAt(e: nat, n: u16, v: seq<u8>, part: seq<u8>, before: seq<u8>, rest: seq<u8>,
                                   data: seq<u8>)
    requires e >= 1 && e * n == |v| && part == Bytes16(n) + v && data == before + part + rest
    ensures |before| + 2 <= |data| && Le16(data[|before|..|before| + 2]) == n
    ensures ArrayField(e, |before|, data) == v
  {
    Slices(before, Bytes16(n), v, rest, data);
  }

  /** A skip over a written field moves by exactly its encoding. */
  lemma {:induction false} SkipsEncoding(f: EventField, v: seq<u8>, part: seq<u8>, before: seq<u8>, rest: seq<u8>,
                                         skipped: nat, offset: nat)
    requires Writable(f) && Fits(f, v) && f.size == 0 && skipped + offset == |before| && part == Encode(f, v)
    ensures var data := before + part + rest;
      SkipFor(f, offset).Ok? && |SkipFor(f, offset).value| == 1
      && SkipOver(SkipFor(f, offset).value[0], skipped, data) == Some(skipped + |part|)
  {
    var data := before + part + rest;
    assert data[|before|..] == part + rest;
    if f.location.StaticLenPrefixArray? {
      WholeElements(|v|, ElementSize(f));
      ArrayAt(ElementSize(f), |v| / ElementSize(f), v, part, before, rest, data);
    } else {
      StringAt(f, v, rest);
    }
  }

  /** A direct read at the start of a written field returns its value. */
  lemma {:induction false} ReadsValue(f: EventField, v: seq<u8>, part: seq<u8>, before: seq<u8>, rest: seq<u8>)
    requires Writable(f) && Fits(f, v) && part == Encode(f, v)
    ensures ReadSize(f).Some?
    ensures Field(ReadSize(f).value, f.location, |before|, before + part + rest) == v
  {
    var data := before + part + rest;
    if f.location.StaticLenPrefixArray? {
      WholeElements(|v|, ElementSize(f));
      ArrayAt(ElementSize(f), |v| / ElementSize(f), v, part, before, rest, data);
    } else if f.location.Static? {
      assert data[|before|..|before| + |v|] == v;
    } else {
      StringAt(f, v, rest);
      assert data[|before|..] == part + rest;
    }
  }

  lemma {:induction false} SkipAllSnoc(skips: seq<FieldSkip>, skip: FieldSkip, data: seq<u8>)
    requires SkipAll(skips, data).Some?
    ensures SkipAll(skips + [skip], data) == SkipOver(skip, SkipAll(skips, data).value, data)
  {
  }

  lemma {:induction false} WritableIsSkipped(f: EventField, offset: nat)
    requires Writable(f)
    ensures SkipFor(f, offset).Ok? && (SkipFor(f, offset).value == [] <==> f.size > 0)
  {
  }

  lemma {:induction false} ChainStep(f: EventField, v: seq<u8>, part: seq<u8>, before: seq<u8>, rest: seq<u8>,
                                     data: seq<u8>, skips: seq<FieldSkip>, skipped: nat, offset: nat,
                                     more: seq<FieldSkip>)
    requires Writable(f) && Fits(f, v) && part == Encode(f, v) && data == before + part + rest
    requires SkipAll(skips, data) == Some(skipped) && skipped + offset == |before| && SkipFor(f, offset) == Ok(more)
    ensures SkipAll(skips + more, data) == Some(|before| + |part| - offset - f.size)
  {
    if f.size == 0 {
      SkipsEncoding(f, v, part, before, rest, skipped, offset);
      OneSkip(skips, more, data);
    } else {
      assert skips + more == skips;
      PartSize(f, v, part);
    }
  }

  lemma {:induction false} PartSize(f: EventField, v: seq<u8>, part: seq<u8>)
    requires Writable(f) && Fits(f, v) && part == Encode(f, v) && f.size > 0
    ensures |part| == f.size
  {
  }

  lemma {:induction false} OneSkip(skips: seq<FieldSkip>, more: seq<FieldSkip>, data: seq<u8>)
    requires |more| == 1 && SkipAll(skips, data).Some?
    ensures SkipAll(skips + more, data) == SkipOver(more[0], SkipAll(skips, data).value, data)
  {
    assert more == [more[0]];
    SkipAllSnoc(skips, more[0], data);
  }

  /** The chain over the first k fields arrives at the position of value k. */
  lemma {:induction false} ChainArrives(fields: seq<EventField>, values: seq<seq<u8>>, parts: seq<seq<u8>>, k: nat,
                                        data: seq<u8>, tail: seq<u8>)
    requires Record(fields, values) && k <= |fields| && parts == Encodings(fields, values)
    requires data == Concat(parts, |parts|) + tail
    ensures SkipsBefore(fields, k).Ok?
    ensures var skips := SkipsBefore(fields, k).value;
      && SkipAll(skips, data).Some?
      && SkipAll(skips, data).value + SizeBefore(fields, k) == |Concat(parts, k)|
      && (skips == [] <==> forall i :: 0 <= i < k ==> fields[i].size > 0)
  {
    if k > 0 {
      ChainArrives(fields, values, parts, k - 1, data, tail);
      var rest := ConcatSplits(parts, k - 1, |parts|, tail);
      var skips, offset := SkipsBefore(fields, k - 1).value, SizeBefore(fields, k - 1);
      WritableIsSkipped(fields[k - 1], offset);
      ChainStep(fields[k - 1], values[k - 1], parts[k - 1], Concat(parts, k - 1), rest, data, skips,
                SkipAll(skips, data).value, offset, SkipFor(fields[k - 1], offset).value);
    }
  }

  /** Reading field k of a written record returns value k, whatever follows the record. */
  lemma {:induction false} ReadUndoesWrite(fields: seq<EventField>, values: seq<seq<u8>>, tail: seq<u8>, k: nat)
    requires Record(fields, values) && GapFree(fields) && k < |fields|
    ensures AccessorAt(fields, k).Some?
    ensures Access(AccessorAt(fields, k).value, Write(fields, values) + tail) == values[k]
  {
    var parts := Encodings(fields, values);
    var data := Concat(parts, |parts|) + tail;
    ChainArrives(fields, values, parts, k, data, tail);
    var rest := ConcatSplits(parts, k, |parts|, tail);
    ReadsValue(fields[k], values[k], parts[k], Concat(parts, k), rest);
    AccessIs(fields, k, data, |Concat(parts, k)|, SkipsBefore(fields, k).value, ReadSize(fields[k]).value);
  }

  lemma {:induction false} AccessIs(fields: seq<EventField>, k: nat, data: seq<u8>, position: nat,
                                    skips: seq<FieldSkip>, size: nat)
    requires GapFree(fields) && k < |fields| && SkipsBefore(fields, k) == Ok(skips)
    requires ReadSize(fields[k]) == Some(size)
    requires SkipAll(skips, data).Some? && SkipAll(skips, data).value + SizeBefore(fields, k) == position
    requires skips == [] <==> forall i :: 0 <= i < k ==> fields[i].size > 0
    ensures AccessorAt(fields, k).Some?
    ensures Access(AccessorAt(fields, k).value, data) == Field(size, fields[k].location, position, data)
  {
    var a :=
      if skips == [] then Direct(fields[k].offset, size, fields[k].location)
      else Chained(SizeBefore(fields, k), size, fields[k].location, skips);
    AccessThere(a, SkipAll(skips, data).value, position, data);
  }

  lemma {:induction false} AccessThere(a: Accessor, skipped: nat, position: nat, data: seq<u8>)
    requires a.Direct? ==> a.offset == position
    requires a.Chained? ==> SkipAll(a.skips, data) == Some(skipped) && a.offset + skipped == position
    ensures Access(a, data) == Field(a.size, a.location, position, data)
  {
  }

  // --- declared offsets that are not those of the writer -----------------------------------------

  /** Field k of a written record is read back. */
  predicate ReadsBack(fields: seq<EventField>, values: seq<seq<u8>>, tail: seq<u8>, k: nat)
    requires Record(fields, values) && k < |fields|
  {
    AccessorAt(fields, k).Some? && Access(AccessorAt(fields, k).value, Write(fields, values) + tail) == values[k]
  }

  predicate Blank(s: seq<u8>) { forall i :: 0 <= i < |s| ==> s[i] == 0 }

  function Fill(b: u8, n: nat): seq<u8> { seq(n, _ => b) }

  /** A value whose encoding is blank. */
  function BlankValue(f: EventField): (v: seq<u8>)
    requires Writable(f)
    ensures Fits(f, v)
  {
    if f.location.Static? then Fill(0, f.size) else []
  }

  /** A value that is read at one place only of a record that is blank otherwise. */
  function ProbeValue(f: EventField): (v: seq<u8>)
    requires Writable(f)
    ensures Fits(f, v)
  {
    match f.location
    case Static => Fill(1, f.size)
    case StaticString => [1]
    case StaticUTF16String => [1, 1]
    case StaticLenPrefixArray => Fill(0, ElementSize(f))
  }

  function Probe(fields: seq<EventField>, k: nat): (values: seq<seq<u8>>)
    requires forall i :: 0 <= i < |fields| ==> Writable(fields[i])
    ensures Record(fields, values)
  {
    seq(|fields|, i requires 0 <= i < |fields| => if i == k then ProbeValue(fields[i]) else BlankValue(fields[i]))
  }

  /** A part with nothing but zeros around it. */
  predicate Alone(data: seq<u8>, p: nat, part: seq<u8>) {
    && p + |part| <= |data| && data[p..p + |part|] == part
    && (forall i :: 0 <= i < p ==> data[i] == 0) && forall i :: p + |part| <= i < |data| ==> data[i] == 0
  }

  lemma {:induction false} BlankIsEncoded(f: EventField)
    requires Writable(f)
    ensures Blank(Encode(f, BlankValue(f))) && (f.size > 0 ==> |Encode(f, BlankValue(f))| == f.size)
  {
  }

  lemma {:induction false} PartsBefore(fields: seq<EventField>, parts: seq<seq<u8>>, k: nat)
    requires k <= |fields| == |parts|
    requires forall i :: 0 <= i < k ==> Blank(parts[i]) && |parts[i]| == fields[i].size
    ensures Blank(Concat(parts, k)) && |Concat(parts, k)| == SizeBefore(fields, k)
  {
    if k > 0 {
      PartsBefore(fields, parts, k - 1);
    }
  }

  lemma {:induction false} PartsAfter(parts: seq<seq<u8>>, k: nat, n: nat, p: nat)
    requires k < n <= |parts| && p == |Concat(parts, k)| && Blank(Concat(parts, k))
    requires forall i :: k < i < n ==> Blank(parts[i])
    ensures Alone(Concat(parts, n), p, parts[k])
    decreases n
  {
    if n > k + 1 {
      PartsAfter(parts, k, n - 1, p);
      AloneBefore(Concat(parts, n - 1), parts[n - 1], p, parts[k]);
    } else {
      var before := Concat(parts, k);
      assert (before + parts[k])[p..p + |parts[k]|] == parts[k];
    }
  }

  lemma {:induction false} AloneBefore(data: seq<u8>, more: seq<u8>, p: nat, part: seq<u8>)
    requires Alone(data, p, part) && Blank(more)
    ensures Alone(data + more, p, part)
  {
    assert (data + more)[p..p + |part|] == data[p..p + |part|];
  }

  /** Read anywhere else, the probe is not what comes out. */
  lemma {:induction false} ProbeIsMissed(f: EventField, data: seq<u8>, p: nat, offset: nat)
    requires Writable(f) && Alone(data, p, Encode(f, ProbeValue(f))) && offset != p
    ensures ReadSize(f).Some? && Field(ReadSize(f).value, f.location, offset, data) != ProbeValue(f)
  {
    match f.location
    case Static => StaticIsMissed(f.size, data, p, offset);
    case StaticString => TextIsMissed(data, p, offset);
    case StaticUTF16String =>
      WideIsMissed(data, p, offset);
    case StaticLenPrefixArray => ArrayIsMissed(ElementSize(f), data, p, offset);
  }

  lemma {:induction false} StaticIsMissed(size: nat, data: seq<u8>, p: nat, offset: nat)
    requires size > 0 && Alone(data, p, Fill(1, size)) && offset != p
    ensures Field(size, Static, offset, data) != Fill(1, size)
  {
    var r := Field(size, Static, offset, data);
    if r != [] {
      var i := if offset < p then 0 else size - 1;
      assert r[i] == data[offset + i] == 0;
      assert Fill(1, size)[i] == 1;
    }
  }

  lemma {:induction false} TextIsMissed(data: seq<u8>, p: nat, offset: nat)
    requires Alone(data, p, [1] + [0]) && offset != p
    ensures Field(0, StaticString, offset, data) != [1]
  {
    assert data[p..p + 2] == [1, 0];
    assert data[p + 1] == data[p..p + 2][1];
    assert offset < |data| ==> data[offset] == 0;
  }

  lemma {:induction false} WideIsMissed(data: seq<u8>, p: nat, offset: nat)
    requires Alone(data, p, [1, 1] + [0, 0]) && offset != p
    ensures Field(0, StaticUTF16String, offset, data) != [1, 1]
  {
    var r := Field(0, StaticUTF16String, offset, data);
    forall i | 0 <= i < |data| && i != p && i != p + 1
      ensures data[i] == 0
    {
      assert p <= i < p + 4 ==> data[i] == data[p..p + 4][i - p];
    }
    if |r| >= 2 {
      assert r[0] == data[offset] && r[1] == data[offset + 1];
    }
  }

  lemma {:induction false} ArrayIsMissed(size: nat, data: seq<u8>, p: nat, offset: nat)
    requires size > 0 && Alone(data, p, Bytes16(1) + Fill(0, size)) && offset != p
    ensures ArrayField(size, offset, data) != Fill(0, size)
  {
    var part := Bytes16(1) + Fill(0, size);
    assert part == [1, 0] + Fill(0, size);
    forall i | 0 <= i < |data| && i != p
      ensures data[i] == 0
    {
      if p <= i < p + |part| {
        assert data[i] == data[p..p + |part|][i - p] == part[i - p];
      }
    }
    if offset + 2 <= |data| {
      var count := Le16(data[offset..offset + 2]);
      assert count == 0 || count == 256 * data[p] as int;
      assert data[p] == data[p..p + |part|][0] == 1;
    }
  }

  lemma {:induction false} SizedHaveNoSkips(fields: seq<EventField>, k: nat)
    requires k <= |fields| && forall i :: 0 <= i < k ==> fields[i].size > 0
    ensures SkipsBefore(fields, k) == Ok([])
  {
    if k > 0 {
      SizedHaveNoSkips(fields, k - 1);
      assert SkipFor(fields[k - 1], SizeBefore(fields, k - 1)) == Ok([]);
      var none: seq<FieldSkip> := [];
      assert none + none == none;
    }
  }

  /** A field up to the first variable-length one that is not declared where the writer puts it. */
  lemma {:induction false} GapIsMisread(fields: seq<EventField>, k: nat)
    requires forall i :: 0 <= i < |fields| ==> Writable(fields[i])
    requires k < |fields| && (forall i :: 0 <= i < k ==> fields[i].size > 0)
    requires fields[k].offset != SizeBefore(fields, k)
    ensures !ReadsBack(fields, Probe(fields, k), [], k)
  {
    var values := Probe(fields, k);
    var parts := Encodings(fields, values);
    forall i | 0 <= i < |fields| && i != k
      ensures Blank(parts[i]) && (fields[i].size > 0 ==> |parts[i]| == fields[i].size)
    {
      BlankIsEncoded(fields[i]);
    }
    var p := SizeBefore(fields, k);
    PartsBefore(fields, parts, k);
    PartsAfter(parts, k, |fields|, p);
    ProbeIsMissed(fields[k], Concat(parts, |fields|), p, fields[k].offset);
    SizedHaveNoSkips(fields, k);
    assert Write(fields, values) + [] == Concat(parts, |fields|);
  }

  /** Every record is read back, whatever follows it, exactly when the declared offsets leave no gap. */
  lemma {:induction false} GapFreeIff(fields: seq<EventField>)
    requires forall i :: 0 <= i < |fields| ==> Writable(fields[i])
    ensures GapFree(fields)
       <==> forall values, tail, k :: Record(fields, values) && 0 <= k < |fields| ==> ReadsBack(fields, values, tail, k)
  {
    if GapFree(fields) {
      forall values, tail, k | Record(fields, values) && 0 <= k < |fields|
        ensures ReadsBack(fields, values, tail, k)
      {
        ReadUndoesWrite(fields, values, tail, k);
      }
    } else {
      var k :| 0 <= k < |fields| && (forall i :: 0 <= i < k ==> fields[i].size > 0)
        && fields[k].offset != SizeBefore(fields, k);
      GapIsMisread(fields, k);
    }
  }

  /** By name: with distinct names the closure returned for a field reads that field's value. */
  method ReadByName(fields: seq<EventField>, values: seq<seq<u8>>, tail: seq<u8>, k: nat) returns (r: seq<u8>)
    requires Record(fields, values) && GapFree(fields) && k < |fields|
    requires forall i, j :: 0 <= i < j < |fields| ==> fields[i].name != fields[j].name
    ensures r == values[k]
  {
    var data := Write(fields, values) + tail;
    var accessor := TryGetFieldDataClosure(fields, fields[k].name);
    ReadUndoesWrite(fields, values, tail, k);
    assert FirstNamed(fields, fields[k].name, k);
    match accessor.value {
      case Direct(offset, size, location) =>
        r := GetDataWithOffsetDirect(size, location, offset, data);
      case Chained(offset, size, location, skips) =>
        r := GetFieldDataClosure(offset, size, location, skips, data);
    }
  }

  /** Behind a variable-length field the chain ignores field offsets: a one-byte gap is read as data. */
  lemma {:induction false} GapBehindStringIsMisread()
    ensures var fields := [EventField("a", ["string"], StaticString, 0, 0), EventField("b", ["u8"], Static, 1, 1)];
      AccessorAt(fields, 1).Some?
      && Access(AccessorAt(fields, 1).value, [65, 0] + [9] + [7]) == [9]
  {
    var fields := [EventField("a", ["string"], StaticString, 0, 0), EventField("b", ["u8"], Static, 1, 1)];
    var data: seq<u8> := [65, 0] + [9] + [7];
    var skip := FieldSkip(StaticString, 0, None);
    assert SizeBefore(fields, 0) == 0 && SizeBefore(fields, 1) == 0;
    assert SkipsBefore(fields, 0) == Ok([]) && SkipFor(fields[0], 0) == Ok([skip]);
    assert [] + [skip] == [skip];
    assert SkipAll([], data) == Some(0);
    TextLengthIs(data, 1);
    assert data[0..] == data;
    SkipAllSnoc([], skip, data);
    assert data[2..3] == [9];
  }
}
