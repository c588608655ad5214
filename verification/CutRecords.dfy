/** Records that end too early: what the resolver gives for each field. */
module CutRecords {
  import opened MachineInt
  import opened Outcome
  import opened EventFormats
  import opened RecordLayouts

  predicate IsWide(f: EventField) { f.location.StaticUTF16String? }

  /** A field that takes a single byte for a value. */
  predicate TakesOneByte(f: EventField) { f.location.StaticString? || (f.location.Static? && f.size == 1) }

  /** What is left of a value when only m bytes of its encoding are: of a string what is there, in whole units. */
  function CutValue(f: EventField, v: seq<u8>, m: nat): seq<u8>
    requires Writable(f) && Fits(f, v) && m < |Encode(f, v)|
  {
    match f.location
    case StaticString => v[..m]
    case StaticUTF16String => v[..m / 2 * 2]
    case _ => []
  }

  /** What a field gives in a record of n bytes, if it starts at p. */
  function LeftAt(f: EventField, v: seq<u8>, p: nat, n: nat): seq<u8>
    requires Writable(f) && Fits(f, v)
  {
    if p + |Encode(f, v)| <= n then v else if p <= n then CutValue(f, v, n - p) else []
  }

  /** What field k of a record cut to n bytes should be: its value, what is left of it, or nothing. */
  function Left(fields: seq<EventField>, values: seq<seq<u8>>, n: nat, k: nat): seq<u8>
    requires Record(fields, values) && k < |fields|
  {
    LeftAt(fields[k], values[k], |Concat(Encodings(fields, values), k)|, n)
  }

  predicate ReadsLeft(fields: seq<EventField>, values: seq<seq<u8>>, n: nat, k: nat)
    requires Record(fields, values) && k < |fields| && n <= |Write(fields, values)|
  {
    && AccessorAt(fields, k).Some?
    && Access(AccessorAt(fields, k).value, Write(fields, values)[..n]) == Left(fields, values, n, k)
  }

  /** A field that takes a single byte does not stand directly behind a wide string. */
  predicate Safe(fields: seq<EventField>, i: nat)
    requires 0 < i < |fields|
  {
    IsWide(fields[i - 1]) ==> !TakesOneByte(fields[i])
  }

  predicate SafeBelow(fields: seq<EventField>, k: nat)
    requires k <= |fields|
  {
    forall i :: 0 < i < k ==> Safe(fields, i)
  }

  /** No wide string is directly followed by a field that takes a single byte. */
  predicate Robust(fields: seq<EventField>) { SafeBelow(fields, |fields|) }

  // --- where the chain gets to ----------------------------------------------------------------------

  /** Where a field is looked for: behind what was skipped and the sizes before it. */
  function Whereabouts(skips: seq<FieldSkip>, offset: nat, data: seq<u8>): Option<nat> {
    match SkipAll(skips, data)
    case None => None
    case Some(skipped) => Some(skipped + offset)
  }

  /** Past the end of the data, or behind half a unit of a wide string, at the last byte. */
  predicate Lost(at: Option<nat>, n: nat, afterWide: bool) {
    at.None? || at.value >= n || (afterWide && at.value + 1 == n)
  }

  lemma {:induction false} WhereAfter(f: EventField, skips: seq<FieldSkip>, more: seq<FieldSkip>, offset: nat,
                                      next: nat, data: seq<u8>)
    requires SkipFor(f, offset) == Ok(more) && next == offset + f.size
    ensures f.size > 0 && SkipAll(skips, data).Some? ==>
              Whereabouts(skips + more, next, data) == Some(SkipAll(skips, data).value + offset + f.size)
    ensures f.size > 0 && SkipAll(skips, data).None? ==> Whereabouts(skips + more, next, data) == None
    ensures f.size == 0 ==> |more| == 1 && more[0].offset == offset && more[0].location == f.location
    ensures f.size == 0 && SkipAll(skips, data).None? ==> Whereabouts(skips + more, next, data) == None
    ensures f.size == 0 && SkipAll(skips, data).Some? ==>
              Whereabouts(skips + more, next, data)
              == match SkipOver(more[0], SkipAll(skips, data).value, data)
                 case None => None
                 case Some(skipped) => Some(skipped + offset)
  {
    if f.size > 0 {
      assert skips + more == skips;
    } else {
      assert more == [more[0]];
      assert (skips + more)[..|skips|] == skips && (skips + more)[|skips|] == more[0];
    }
  }

  /** What is skipped at or behind the end is nothing, or ends the chain. */
  lemma {:induction false} SkipPast(skip: FieldSkip, skipped: nat, data: seq<u8>, start: nat)
    requires start == skipped + skip.offset >= |data|
    ensures var r := SkipOver(skip, skipped, data); r.None? || r == Some(skipped)
  {
    if start == |data| {
      assert data[start..] == [];
    }
  }

  /** A single byte is no unit and no count. */
  lemma {:induction false} SkipLastByte(skip: FieldSkip, skipped: nat, data: seq<u8>, start: nat)
    requires start == skipped + skip.offset && start + 1 == |data| && !skip.location.StaticString?
    ensures var r := SkipOver(skip, skipped, data); r.None? || r == Some(skipped)
  {
    assert |data[start..]| == 1;
  }

  lemma {:induction false} StaysLost(f: EventField, skips: seq<FieldSkip>, more: seq<FieldSkip>, offset: nat, next: nat,
                                     data: seq<u8>, afterWide: bool)
    requires Writable(f) && SkipFor(f, offset) == Ok(more) && next == offset + f.size
    requires Lost(Whereabouts(skips, offset, data), |data|, afterWide) && (afterWide ==> !TakesOneByte(f))
    ensures Lost(Whereabouts(skips + more, next, data), |data|, IsWide(f))
  {
    WhereAfter(f, skips, more, offset, next, data);
    if f.size == 0 && SkipAll(skips, data).Some? {
      var skipped := SkipAll(skips, data).value;
      if skipped + offset >= |data| {
        SkipPast(more[0], skipped, data, skipped + offset);
      } else {
        SkipLastByte(more[0], skipped, data, skipped + offset);
        if f.location.StaticLenPrefixArray? {
          assert SkipOver(more[0], skipped, data).None?;
        }
      }
    }
  }

  lemma {:induction false} NoTerminator(s: seq<u8>)
    requires forall i :: 0 <= i < |s| ==> s[i] != 0
    ensures TextLength(s) == |s|
  {
  }

  lemma {:induction false} NoWideTerminator(s: seq<u8>)
    requires forall i :: 0 <= i < |s| && i % 2 == 0 ==> !ZeroUnit(s, i)
    ensures WideLength(s) == |s| / 2 * 2
  {
    if |s| >= 2 {
      assert !ZeroUnit(s, 0);
      forall i | 0 <= i < |s| - 2 && i % 2 == 0
        ensures !ZeroUnit(s[2..], i)
      {
        assert !ZeroUnit(s, i + 2);
      }
      NoWideTerminator(s[2..]);
    }
  }

  lemma {:induction false} CutText(v: seq<u8>, m: nat, s: seq<u8>)
    requires (forall i :: 0 <= i < |v| ==> v[i] != 0) && m <= |v| && s == (v + [0])[..m]
    ensures TextLength(s) == m == |s| && s == v[..m]
  {
    assert s == v[..m];
    NoTerminator(s);
  }

  lemma {:induction false} CutWide(v: seq<u8>, m: nat, s: seq<u8>)
    requires |v| % 2 == 0 && forall i :: 0 <= i < |v| && i % 2 == 0 ==> !ZeroUnit(v, i)
    requires m <= |v| + 1 && s == (v + [0, 0])[..m]
    ensures WideLength(s) == m / 2 * 2 && m / 2 * 2 <= |v| && s[..m / 2 * 2] == v[..m / 2 * 2]
  {
    forall i | 0 <= i < |s| && i % 2 == 0
      ensures !ZeroUnit(s, i)
    {
      if i + 1 < |s| {
        assert i < |v| && i + 1 < |v|;
        assert s[i] == v[i] && s[i + 1] == v[i + 1];
        assert !ZeroUnit(v, i);
      }
    }
    NoWideTerminator(s);
  }

  /** A string whose encoding is cut has no terminator left. */
  lemma {:induction false} CutString(f: EventField, v: seq<u8>, m: nat, s: seq<u8>)
    requires Writable(f) && Fits(f, v) && m < |Encode(f, v)| && s == Encode(f, v)[..m]
    ensures f.location.StaticString? ==> TextLength(s) == m == |s| && s == v[..m]
    ensures IsWide(f) ==> WideLength(s) == m / 2 * 2 && m / 2 * 2 <= |v| && s[..m / 2 * 2] == v[..m / 2 * 2]
  {
    if f.location.StaticString? {
      CutText(v, m, s);
    } else if IsWide(f) {
      CutWide(v, m, s);
    }
  }

  /** An array whose encoding is cut has no count, or not as many elements as it says. */
  lemma {:induction false} CutArray(f: EventField, v: seq<u8>, m: nat, before: seq<u8>, data: seq<u8>, start: nat)
    requires Writable(f) && Fits(f, v) && f.location.StaticLenPrefixArray? && m < |Encode(f, v)|
    requires data == before + Encode(f, v)[..m] && start == |before|
    ensures start + 2 <= |data| ==> Le16(data[start..start + 2]) == |v| / ElementSize(f)
    ensures ElementSize(f) * (|v| / ElementSize(f)) == |v|
    ensures ArrayField(ElementSize(f), start, data) == []
  {
    WholeElements(|v|, ElementSize(f));
    var count := Bytes16(|v| / ElementSize(f));
    if start + 2 <= |data| {
      var part := Encode(f, v);
      assert part[..2] == count;
      assert data[start..start + 2] == part[..m][..2] == part[..2];
    }
  }

  /** Skipping a field that is cut gets past the end, or to the half of a unit that is left. */
  lemma {:induction false} GetsLost(f: EventField, v: seq<u8>, m: nat, before: seq<u8>, skips: seq<FieldSkip>,
                                    more: seq<FieldSkip>, offset: nat, next: nat, data: seq<u8>)
    requires Writable(f) && Fits(f, v) && m < |Encode(f, v)| && data == before + Encode(f, v)[..m]
    requires SkipFor(f, offset) == Ok(more) && next == offset + f.size
    requires Whereabouts(skips, offset, data) == Some(|before|)
    ensures Lost(Whereabouts(skips + more, next, data), |data|, IsWide(f))
  {
    WhereAfter(f, skips, more, offset, next, data);
    if f.size == 0 {
      var s := data[|before|..];
      assert s == Encode(f, v)[..m];
      if f.location.StaticLenPrefixArray? {
        CutArray(f, v, m, before, data, |before|);
      } else {
        CutString(f, v, m, s);
      }
    }
  }

  /** As far as the record goes the chain arrives; behind its end it is lost. */
  predicate ArrivedOrLost(at: Option<nat>, p: nat, n: nat, afterWide: bool) {
    if p <= n then at == Some(p) else Lost(at, n, afterWide)
  }

  lemma {:induction false} Behind(before: seq<u8>, part: seq<u8>, data: seq<u8>, end: nat)
    requires end == |before| + |part| <= |data| && (data <= before + part || before + part <= data)
    ensures data == before + part + data[end..]
  {
  }

  lemma {:induction false} Within(before: seq<u8>, part: seq<u8>, data: seq<u8>, m: nat)
    requires |data| == |before| + m && m < |part| && (data <= before + part || before + part <= data)
    ensures data == before + part[..m]
  {
    assert data == (before + part)[..|data|];
  }

  lemma {:induction false} ArrivesNext(f: EventField, v: seq<u8>, part: seq<u8>, before: seq<u8>, rest: seq<u8>,
                                       data: seq<u8>, skips: seq<FieldSkip>, more: seq<FieldSkip>, offset: nat,
                                       next: nat, end: nat)
    requires Writable(f) && Fits(f, v) && part == Encode(f, v) && data == before + part + rest
    requires SkipFor(f, offset) == Ok(more) && next == offset + f.size && end == |before| + |part|
    requires Whereabouts(skips, offset, data) == Some(|before|)
    ensures Whereabouts(skips + more, next, data) == Some(end)
  {
    ChainStep(f, v, part, before, rest, data, skips, SkipAll(skips, data).value, offset, more);
  }

  lemma {:induction false} OneFieldOn(f: EventField, v: seq<u8>, part: seq<u8>, before: seq<u8>, skips: seq<FieldSkip>,
                                      more: seq<FieldSkip>, offset: nat, next: nat, data: seq<u8>, afterWide: bool)
    requires Writable(f) && Fits(f, v) && part == Encode(f, v) && SkipFor(f, offset) == Ok(more)
    requires next == offset + f.size && (afterWide ==> !TakesOneByte(f))
    requires ArrivedOrLost(Whereabouts(skips, offset, data), |before|, |data|, afterWide)
    requires data <= before + part || before + part <= data
    ensures ArrivedOrLost(Whereabouts(skips + more, next, data), |before + part|, |data|, IsWide(f))
  {
    var end := |before| + |part|;
    if end <= |data| {
      Behind(before, part, data, end);
      ArrivesNext(f, v, part, before, data[end..], data, skips, more, offset, next, end);
    } else if |before| <= |data| {
      Within(before, part, data, |data| - |before|);
      GetsLost(f, v, |data| - |before|, before, skips, more, offset, next, data);
    } else {
      StaysLost(f, skips, more, offset, next, data, afterWide);
    }
  }

  /** Where the chain over the first k fields gets to in a record that is cut. */
  predicate GetsTo(fields: seq<EventField>, parts: seq<seq<u8>>, k: nat, data: seq<u8>)
    requires k <= |fields| == |parts|
  {
    && SkipsBefore(fields, k).Ok?
    && ArrivedOrLost(Whereabouts(SkipsBefore(fields, k).value, SizeBefore(fields, k), data), |Concat(parts, k)|, |data|,
                     k > 0 && IsWide(fields[k - 1]))
  }

  lemma {:induction false} GetsOn(fields: seq<EventField>, v: seq<u8>, parts: seq<seq<u8>>, j: nat, k: nat,
                                  data: seq<u8>)
    requires j + 1 == k <= |fields| == |parts| && GetsTo(fields, parts, j, data)
    requires Writable(fields[j]) && Fits(fields[j], v) && parts[j] == Encode(fields[j], v)
    requires j > 0 ==> Safe(fields, j)
    requires data <= Concat(parts, j) + parts[j] || Concat(parts, j) + parts[j] <= data
    ensures GetsTo(fields, parts, k, data)
  {
    var more := NextSkips(fields, j, k);
    OneFieldOn(fields[j], v, parts[j], Concat(parts, j), SkipsBefore(fields, j).value, more, SizeBefore(fields, j),
               SizeBefore(fields, k), data, j > 0 && IsWide(fields[j - 1]));
    LengthNext(parts, j, k);
  }

  lemma {:induction false} ArrivesOrLost(fields: seq<EventField>, values: seq<seq<u8>>, parts: seq<seq<u8>>, k: nat,
                                         data: seq<u8>)
    requires Record(fields, values) && k <= |fields| && parts == Encodings(fields, values)
    requires data <= Concat(parts, |parts|) && SafeBelow(fields, k)
    ensures GetsTo(fields, parts, k, data)
  {
    if k > 0 {
      ArrivesOrLost(fields, values, parts, k - 1, data);
      StartsAlike(parts, k - 1, data);
      assert k - 1 > 0 ==> Safe(fields, k - 1);
      GetsOn(fields, values[k - 1], parts, k - 1, k, data);
    }
  }

  lemma {:induction false} NextSkips(fields: seq<EventField>, j: nat, k: nat) returns (more: seq<FieldSkip>)
    requires j + 1 == k <= |fields| && SkipsBefore(fields, j).Ok? && Writable(fields[j])
    ensures SkipFor(fields[j], SizeBefore(fields, j)) == Ok(more)
    ensures SkipsBefore(fields, k) == Ok(SkipsBefore(fields, j).value + more)
    ensures SizeBefore(fields, k) == SizeBefore(fields, j) + fields[j].size
  {
    WritableIsSkipped(fields[j], SizeBefore(fields, j));
    more := SkipFor(fields[j], SizeBefore(fields, j)).value;
  }

  lemma {:induction false} LengthNext(parts: seq<seq<u8>>, j: nat, k: nat)
    requires j + 1 == k <= |parts|
    ensures |Concat(parts, k)| == |Concat(parts, j)| + |parts[j]|
  {
  }

  lemma {:induction false} StartsAlike(parts: seq<seq<u8>>, k: nat, data: seq<u8>)
    requires k < |parts| && data <= Concat(parts, |parts|)
    ensures data <= Concat(parts, k) + parts[k] || Concat(parts, k) + parts[k] <= data
  {
    if |Concat(parts, k)| + |parts[k]| <= |data| {
      var rest := CutBehind(parts, k, data);
    } else {
      var behind := ConcatSplits(parts, k, |parts|, []);
      var whole := Concat(parts, |parts|);
      assert whole + [] == whole;
      assert data == whole[..|data|] == (Concat(parts, k) + parts[k])[..|data|];
    }
  }

  lemma {:induction false} CutBehind(parts: seq<seq<u8>>, k: nat, data: seq<u8>) returns (rest: seq<u8>)
    requires k < |parts| && data <= Concat(parts, |parts|) && |Concat(parts, k)| + |parts[k]| <= |data|
    ensures data == Concat(parts, k) + parts[k] + rest
  {
    var behind := ConcatSplits(parts, k, |parts|, []);
    var whole := Concat(parts, |parts|);
    assert whole + [] == whole;
    var n := |Concat(parts, k)| + |parts[k]|;
    rest := data[n..];
    assert data[..n] == whole[..n] == Concat(parts, k) + parts[k];
  }

  // --- what is read there -----------------------------------------------------------------------------

  lemma {:induction false} ReadsCut(f: EventField, v: seq<u8>, m: nat, before: seq<u8>, data: seq<u8>)
    requires Writable(f) && Fits(f, v) && m < |Encode(f, v)| && data == before + Encode(f, v)[..m]
    ensures ReadSize(f).Some? && Field(ReadSize(f).value, f.location, |before|, data) == CutValue(f, v, m)
  {
    var s := data[|before|..];
    assert s == Encode(f, v)[..m];
    if f.location.StaticLenPrefixArray? {
      CutArray(f, v, m, before, data, |before|);
    } else if !f.location.Static? {
      CutString(f, v, m, s);
    }
  }

  lemma {:induction false} ReadsNothing(f: EventField, at: nat, data: seq<u8>, afterWide: bool)
    requires Writable(f) && Lost(Some(at), |data|, afterWide) && (afterWide ==> !TakesOneByte(f))
    ensures ReadSize(f).Some? && Field(ReadSize(f).value, f.location, at, data) == []
  {
    if at < |data| {
      assert |data[at..]| == 1;
    } else if at == |data| {
      assert data[at..] == [];
    }
  }

  /** A field that can be read directly declares the offset it has. */
  predicate Declared(fields: seq<EventField>, k: nat)
    requires k < |fields|
  {
    (forall i :: 0 <= i < k ==> fields[i].size > 0) ==> fields[k].offset == SizeBefore(fields, k)
  }

  predicate AllDeclared(fields: seq<EventField>) {
    forall k {:trigger Declared(fields, k)} :: 0 <= k < |fields| ==> Declared(fields, k)
  }

  lemma {:induction false} GapFreeIsDeclared(fields: seq<EventField>)
    requires GapFree(fields)
    ensures AllDeclared(fields)
  {
  }

  lemma {:induction false} AccessFrom(fields: seq<EventField>, k: nat, data: seq<u8>, skips: seq<FieldSkip>, size: nat)
    requires k < |fields| && Declared(fields, k) && SkipsBefore(fields, k) == Ok(skips)
    requires ReadSize(fields[k]) == Some(size)
    requires skips == [] <==> forall i :: 0 <= i < k ==> fields[i].size > 0
    ensures AccessorAt(fields, k).Some?
    ensures Access(AccessorAt(fields, k).value, data)
         == match Whereabouts(skips, SizeBefore(fields, k), data)
            case None => []
            case Some(at) => Field(size, fields[k].location, at, data)
  {
  }

  lemma {:induction false} NoSkipsIff(fields: seq<EventField>, k: nat)
    requires k <= |fields| && SkipsBefore(fields, k).Ok? && forall i :: 0 <= i < k ==> Writable(fields[i])
    ensures SkipsBefore(fields, k).value == [] <==> forall i :: 0 <= i < k ==> fields[i].size > 0
  {
    if k > 0 {
      NoSkipsIff(fields, k - 1);
      WritableIsSkipped(fields[k - 1], SizeBefore(fields, k - 1));
    }
  }

  lemma {:induction false} FieldIsRead(f: EventField, v: seq<u8>, part: seq<u8>, before: seq<u8>, data: seq<u8>,
                                       at: Option<nat>, afterWide: bool)
    requires Writable(f) && Fits(f, v) && part == Encode(f, v) && (afterWide ==> !TakesOneByte(f))
    requires data <= before + part || before + part <= data
    requires ArrivedOrLost(at, |before|, |data|, afterWide)
    ensures ReadSize(f).Some?
    ensures LeftAt(f, v, |before|, |data|)
         == match at
            case None => []
            case Some(q) => Field(ReadSize(f).value, f.location, q, data)
  {
    var end := |before| + |part|;
    if end <= |data| {
      Behind(before, part, data, end);
      ReadsValue(f, v, part, before, data[end..]);
    } else if |before| <= |data| {
      Within(before, part, data, |data| - |before|);
      ReadsCut(f, v, |data| - |before|, before, data);
    } else if at.Some? {
      ReadsNothing(f, at.value, data, afterWide);
    }
  }

  /** Wherever such a record ends, each field gives its value, what is left of it, or nothing. */
  lemma {:induction false} CutIsRead(fields: seq<EventField>, values: seq<seq<u8>>, n: nat, k: nat)
    requires Record(fields, values) && k < |fields| && Declared(fields, k) && n <= |Write(fields, values)|
    requires Robust(fields)
    ensures ReadsLeft(fields, values, n, k)
  {
    var parts, data := Encodings(fields, values), Write(fields, values)[..n];
    ArrivesOrLost(fields, values, parts, k, data);
    NoSkipsIff(fields, k);
    StartsAlike(parts, k, data);
    assert k > 0 ==> Safe(fields, k);
    var skips := SkipsBefore(fields, k).value;
    FieldIsRead(fields[k], values[k], parts[k], Concat(parts, k), data, Whereabouts(skips, SizeBefore(fields, k), data),
                k > 0 && IsWide(fields[k - 1]));
    AccessFrom(fields, k, data, skips, ReadSize(fields[k]).value);
  }

  // --- the layouts for which it fails -------------------------------------------------------------------

  /** A wide string cut in the middle of its first unit: the byte that is left is taken for the next field. */
  lemma {:induction false} HalfUnitIsMisread(fields: seq<EventField>, values: seq<seq<u8>>, k: nat) returns (n: nat)
    requires Record(fields, values) && 0 < k < |fields| && Declared(fields, k) && SafeBelow(fields, k)
    requires IsWide(fields[k - 1]) && TakesOneByte(fields[k]) && values[k - 1] == [1, 1]
    ensures n <= |Write(fields, values)| && !ReadsLeft(fields, values, n, k)
  {
    var parts := Encodings(fields, values);
    var data := Concat(parts, k - 1) + [1];
    n := |data|;
    HalfUnitIsLeft(fields, values, parts, k - 1, k, data);
    GetsByte(fields, values, parts, k - 1, k, data, |Concat(parts, k - 1)|);
    LeftIsNothing(fields, values, parts, k, n);
    NotWhatIsLeft(fields, values, parts, n, k, data);
  }

  lemma {:induction false} NotWhatIsLeft(fields: seq<EventField>, values: seq<seq<u8>>, parts: seq<seq<u8>>, n: nat,
                                         k: nat, data: seq<u8>)
    requires Record(fields, values) && k < |fields| && parts == Encodings(fields, values)
    requires data <= Concat(parts, |parts|) && n == |data| && Left(fields, values, n, k) == []
    requires AccessorAt(fields, k).Some? && Access(AccessorAt(fields, k).value, data) == [1]
    ensures n <= |Write(fields, values)| && !ReadsLeft(fields, values, n, k)
  {
    assert Write(fields, values)[..n] == data;
  }

  lemma {:induction false} LeftIsNothing(fields: seq<EventField>, values: seq<seq<u8>>, parts: seq<seq<u8>>, k: nat,
                                         n: nat)
    requires Record(fields, values) && k < |fields| && parts == Encodings(fields, values) && n < |Concat(parts, k)|
    ensures Left(fields, values, n, k) == []
  {
  }

  lemma {:induction false} GetsByte(fields: seq<EventField>, values: seq<seq<u8>>, parts: seq<seq<u8>>, j: nat, k: nat,
                                    data: seq<u8>, p: nat)
    requires Record(fields, values) && parts == Encodings(fields, values)
    requires j + 1 == k < |fields| && IsWide(fields[j]) && TakesOneByte(fields[k])
    requires Declared(fields, k) && SafeBelow(fields, k)
    requires data <= Concat(parts, |parts|) && data == Concat(parts, j) + [1] && p == |Concat(parts, j)|
    ensures AccessorAt(fields, k).Some? && Access(AccessorAt(fields, k).value, data) == [1]
  {
    ArrivesOrLost(fields, values, parts, j, data);
    StaysAtByte(fields, parts, j, k, data, p);
    NoSkipsIff(fields, k);
    ByteIsTaken(fields[k], data, p);
    AccessFrom(fields, k, data, SkipsBefore(fields, k).value, fields[k].size);
  }

  lemma {:induction false} StaysAtByte(fields: seq<EventField>, parts: seq<seq<u8>>, j: nat, k: nat, data: seq<u8>,
                                       p: nat)
    requires j + 1 == k <= |fields| == |parts| && GetsTo(fields, parts, j, data) && p == |Concat(parts, j)|
    requires Writable(fields[j]) && IsWide(fields[j]) && |data| == p + 1
    ensures SkipsBefore(fields, k).Ok?
    ensures Whereabouts(SkipsBefore(fields, k).value, SizeBefore(fields, k), data) == Some(p)
  {
    var more := NextSkips(fields, j, k);
    HalfUnitIsKept(fields[j], SkipsBefore(fields, j).value, more, SizeBefore(fields, j), data, p);
  }

  lemma {:induction false} HalfUnitIsLeft(fields: seq<EventField>, values: seq<seq<u8>>, parts: seq<seq<u8>>, j: nat,
                                          k: nat, data: seq<u8>)
    requires Record(fields, values) && j + 1 == k <= |fields| && parts == Encodings(fields, values)
    requires IsWide(fields[j]) && values[j] == [1, 1] && data == Concat(parts, j) + [1]
    ensures data <= Concat(parts, |parts|) && |data| < |Concat(parts, k)|
  {
    var rest := ConcatSplits(parts, j, |parts|, []);
    assert Concat(parts, |parts|) + [] == Concat(parts, |parts|);
    assert parts[j] == [1, 1] + [0, 0];
    assert parts[j][..1] == [1];
  }

  lemma {:induction false} HalfUnitIsKept(f: EventField, skips: seq<FieldSkip>, more: seq<FieldSkip>, offset: nat,
                                          data: seq<u8>, p: nat)
    requires Writable(f) && IsWide(f) && SkipFor(f, offset) == Ok(more) && p + 1 == |data|
    requires Whereabouts(skips, offset, data) == Some(p)
    ensures Whereabouts(skips + more, offset + f.size, data) == Some(p)
  {
    WhereAfter(f, skips, more, offset, offset + f.size, data);
    assert |data[p..]| == 1;
  }

  lemma {:induction false} ByteIsTaken(f: EventField, data: seq<u8>, p: nat)
    requires Writable(f) && TakesOneByte(f) && p + 1 == |data| && data[p] == 1
    ensures ReadSize(f) == Some(f.size) && Field(f.size, f.location, p, data) == [1]
  {
    assert data[p..] == [1];
    if f.location.StaticString? {
      NoTerminator(data[p..]);
    }
  }

  ghost predicate AllRead(fields: seq<EventField>) {
    forall values, n: nat, k: nat :: Record(fields, values) && k < |fields| && n <= |Write(fields, values)| ==>
      ReadsLeft(fields, values, n, k)
  }

  lemma {:induction false} FirstFragile(fields: seq<EventField>) returns (k: nat)
    requires !Robust(fields)
    ensures 0 < k < |fields| && IsWide(fields[k - 1]) && TakesOneByte(fields[k])
    ensures SafeBelow(fields, k)
  {
    k := 1;
    while Safe(fields, k)
      invariant 0 < k < |fields|
      invariant SafeBelow(fields, k)
      invariant exists j :: k <= j < |fields| && !Safe(fields, j)
      decreases |fields| - k
    {
      k := k + 1;
    }
  }

  lemma {:induction false} FragileIsMisread(fields: seq<EventField>, values: seq<seq<u8>>, k: nat)
    requires Record(fields, values) && 0 < k < |fields| && Declared(fields, k) && SafeBelow(fields, k)
    requires IsWide(fields[k - 1]) && TakesOneByte(fields[k]) && values[k - 1] == [1, 1]
    ensures !AllRead(fields)
  {
    var n := HalfUnitIsMisread(fields, values, k);
    assert !ReadsLeft(fields, values, n, k);
  }

  lemma {:induction false} RobustIsRead(fields: seq<EventField>)
    requires AllDeclared(fields) && Robust(fields)
    ensures AllRead(fields)
  {
    forall values, n: nat, k: nat | Record(fields, values) && k < |fields| && n <= |Write(fields, values)|
      ensures ReadsLeft(fields, values, n, k)
    {
      assert Declared(fields, k);
      CutIsRead(fields, values, n, k);
    }
  }

  lemma {:induction false} DeclaredReadIff(fields: seq<EventField>)
    requires (forall i :: 0 <= i < |fields| ==> Writable(fields[i])) && AllDeclared(fields)
    ensures AllRead(fields) <==> Robust(fields)
  {
    if Robust(fields) {
      RobustIsRead(fields);
    } else {
      var k := FirstFragile(fields);
      assert Declared(fields, k);
      FragileIsMisread(fields, Probe(fields, k - 1), k);
    }
  }

  /**
   All records of a layout can end anywhere without a field being taken for another one's exactly when no wide
   string is directly followed by a byte string or a one-byte field.
   */
  lemma {:induction false} CutReadIff(fields: seq<EventField>)
    requires (forall i :: 0 <= i < |fields| ==> Writable(fields[i])) && GapFree(fields)
    ensures AllRead(fields) <==> Robust(fields)
  {
    GapFreeIsDeclared(fields);
    DeclaredReadIff(fields);
  }
}
