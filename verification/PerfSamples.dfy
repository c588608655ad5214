/** Decoding whole samples and the identity trailer of other records. */
module PerfSamples {
  import opened MachineInt
  import opened Bytes
  import opened Outcome
  import opened PerfRecords
  import opened PerfLayouts

  // --- all sections ---------------------------------------------------------------------------------------

  predicate OncePerKind(kinds: seq<Kind>) {
    forall j, k :: 0 <= j < k < |kinds| ==> kinds[j] != kinds[k]
  }

  /** A record behind its header: the sections, then whatever follows. */
  ghost predicate Holds(kinds: seq<Kind>, a: Attributes, m: Sample, data: seq<u8>) {
    Fits(data, a, m) && PartAt(data, HEADER_SIZE, Encode(kinds, a, m)) && forall kind :: kind in kinds ==> Parsed(kind)
  }

  ghost predicate AllSupported(kinds: seq<Kind>, a: Attributes, m: Sample) {
    forall kind :: kind in kinds ==> Supported(kind, a, m)
  }

  function Begin(fields: Fields): State { State(HEADER_SIZE, fields, None) }

  /** Every section so far was stepped over with its field in place. */
  ghost predicate Exact(kinds: seq<Kind>, a: Attributes, m: Sample, fields: Fields, r: Result<State>) {
    && r.Ok?
    && r.value.offset == HEADER_SIZE + |Encode(kinds, a, m)|
    && r.value.fields == Expected(kinds, a, m, fields)
  }

  /** The field of a section that is not supported is not where it should be. */
  ghost predicate Broken(kinds: seq<Kind>, a: Attributes, m: Sample, fields: Fields, r: Result<State>, kind: Kind) {
    && kind in kinds && !Supported(kind, a, m)
    && (r.Ok? ==>
          var (name, expected) := (NameOf(kind), Expected(kinds, a, m, fields));
          name in expected && (name !in r.value.fields || r.value.fields[name] != expected[name]))
  }

  lemma {:induction false} Unsnoc(kinds: seq<Kind>, a: Attributes, m: Sample, data: seq<u8>)
    requires kinds != [] && Holds(kinds, a, m, data)
    ensures var (before, kind) := (kinds[..|kinds| - 1], kinds[|kinds| - 1]);
      && Holds(before, a, m, data) && Parsed(kind)
      && PartAt(data, HEADER_SIZE + |Encode(before, a, m)|, Section(kind, a, m))
  {
    var before, kind := kinds[..|kinds| - 1], kinds[|kinds| - 1];
    PartSplits(data, HEADER_SIZE, Encode(before, a, m), Section(kind, a, m));
  }

  /** Sections that are all supported leave every reference on its own bytes. */
  lemma {:induction false} SupportedIsExact(kinds: seq<Kind>, a: Attributes, m: Sample, data: seq<u8>, fields: Fields)
    requires Holds(kinds, a, m, data) && AllSupported(kinds, a, m)
    ensures Exact(kinds, a, m, fields, Decode(kinds, a, data, Begin(fields)))
  {
    if kinds != [] {
      var before, kind := kinds[..|kinds| - 1], kinds[|kinds| - 1];
      Unsnoc(kinds, a, m, data);
      SupportedIsExact(before, a, m, data, fields);
      assert Supported(kind, a, m);
      SectionSteps(kind, a, m, data, Decode(before, a, data, Begin(fields)).value);
    }
  }

  /** No other section touches the field of one that can be unsupported. */
  lemma {:induction false} OthersKeep(kind: Kind, other: Kind, a: Attributes, m: Sample, data: seq<u8>, s: State,
                                      offset: nat)
    requires !Supported(kind, a, m) && other != kind
    ensures var (name, r) := (NameOf(kind), Step(other, a, data, s));
      && (r.Ok? ==> (name in r.value.fields <==> name in s.fields))
      && (r.Ok? && name in s.fields ==> r.value.fields[name] == s.fields[name])
    ensures NameOf(kind) !in Fills(other, a, m, offset)
  {
  }

  lemma {:induction false} BreaksAtLast(kinds: seq<Kind>, a: Attributes, m: Sample, data: seq<u8>, fields: Fields)
    requires kinds != [] && Holds(kinds, a, m, data) && !Supported(kinds[|kinds| - 1], a, m)
    requires AllSupported(kinds[..|kinds| - 1], a, m)
    ensures Broken(kinds, a, m, fields, Decode(kinds, a, data, Begin(fields)), kinds[|kinds| - 1])
  {
    var before, last := kinds[..|kinds| - 1], kinds[|kinds| - 1];
    Unsnoc(kinds, a, m, data);
    SupportedIsExact(before, a, m, data, fields);
    SectionSteps(last, a, m, data, Decode(before, a, data, Begin(fields)).value);
  }

  /** The first section that is not supported spoils its field for good. */
  lemma {:induction false} UnsupportedIsBroken(kinds: seq<Kind>, a: Attributes, m: Sample, data: seq<u8>,
                                               fields: Fields)
    requires Holds(kinds, a, m, data) && OncePerKind(kinds) && !AllSupported(kinds, a, m)
    ensures exists kind :: Broken(kinds, a, m, fields, Decode(kinds, a, data, Begin(fields)), kind)
  {
    var before, last := kinds[..|kinds| - 1], kinds[|kinds| - 1];
    var r := Decode(before, a, data, Begin(fields));
    Unsnoc(kinds, a, m, data);
    if AllSupported(before, a, m) {
      assert before + [last] == kinds;
      BreaksAtLast(kinds, a, m, data, fields);
    } else {
      UnsupportedIsBroken(before, a, m, data, fields);
      var kind :| Broken(before, a, m, fields, r, kind);
      LastIsNew(kinds, kind);
      BrokenStays(before, last, a, m, data, fields, kind);
      assert before + [last] == kinds;
    }
  }

  lemma {:induction false} LastIsNew(kinds: seq<Kind>, kind: Kind)
    requires kinds != [] && OncePerKind(kinds) && kind in kinds[..|kinds| - 1]
    ensures kind != kinds[|kinds| - 1]
  {
    var k :| 0 <= k < |kinds| - 1 && kinds[k] == kind;
    assert kinds[k] != kinds[|kinds| - 1];
  }

  lemma {:induction false} BrokenStays(before: seq<Kind>, last: Kind, a: Attributes, m: Sample, data: seq<u8>,
                                       fields: Fields, kind: Kind)
    requires Broken(before, a, m, fields, Decode(before, a, data, Begin(fields)), kind) && kind != last
    ensures Broken(before + [last], a, m, fields, Decode(before + [last], a, data, Begin(fields)), kind)
  {
    var r := Decode(before, a, data, Begin(fields));
    var kinds := before + [last];
    assert kinds[..|kinds| - 1] == before;
    var offset := HEADER_SIZE + |Encode(before, a, m)|;
    OthersKeep(kind, last, a, m, data, if r.Ok? then r.value else Begin(fields), offset);
  }

  lemma {:induction false} OrderIsOnce()
    ensures OncePerKind(ORDER) && ORDER[0] == IDENTIFIER
    ensures forall kind :: kind in ORDER <==> Parsed(kind)
  {
  }

  /**
   Of a record in the kernel's layout, every reference stands on its own bytes exactly when counters that
   were read have the size the session assumes, user registers are not 32-bit, and no unparsed section stands
   before a control group.
   */
  lemma {:induction false} FieldsAreOwnIff(a: Attributes, m: Sample, data: seq<u8>, fields: Fields)
    requires Fits(data, a, m) && PartAt(data, HEADER_SIZE, Encode(ORDER, a, m))
    ensures var r := Decode(ORDER, a, data, Begin(fields));
      r.Ok? && r.value.fields == Expected(ORDER, a, m, fields)
      <==>
      && (READ in a.sampleType ==> |m.read| == 8 * |a.readFormat|)
      && (REGS_USER in a.sampleType ==> m.abi != 1 || a.regsUserCount == 0)
      && (CGROUP in a.sampleType ==> a.sampleType * UNPARSED == {})
  {
    OrderIsOnce();
    if AllSupported(ORDER, a, m) {
      SupportedIsExact(ORDER, a, m, data, fields);
      assert Supported(READ, a, m) && Supported(REGS_USER, a, m) && Supported(CGROUP, a, m);
    } else {
      UnsupportedIsBroken(ORDER, a, m, data, fields);
    }
  }

  lemma {:induction false} OneSection(kinds: seq<Kind>, a: Attributes, m: Sample, kind: Kind)
    requires a.sampleType == {kind} && OncePerKind(kinds)
    ensures Encode(kinds, a, m) == if kind in kinds then PartOf(kind, m).Bytes() else []
  {
    if kinds != [] {
      var before, last := kinds[..|kinds| - 1], kinds[|kinds| - 1];
      OneSection(before, a, m, kind);
      assert kind in kinds <==> kind in before || kind == last;
      assert last !in before;
      assert Encode(kinds, a, m) == Encode(before, a, m) + Section(last, a, m);
      assert Section(last, a, m) == if last == kind then Section(kind, a, m) else [];
    }
  }

  /** A whole record with three registers of the 32-bit ABI and nothing else: their field is not where they are. */
  lemma {:induction false} NarrowRecordIsMisread(m: Sample, data: seq<u8>, fields: Fields)
    requires m.abi == 1 && m.regs == [1, 2, 3]
    requires m.branches == [] && m.stack == [] && m.stackRead == 0 && m.between == []
    requires data == Zeros(HEADER_SIZE) + Encode(ORDER, Attributes({REGS_USER}, {}, 3, false), m)
    ensures var a := Attributes({REGS_USER}, {}, 3, false);
      var r := Decode(ORDER, a, data, Begin(fields));
      && Fits(data, a, m) && PartAt(data, HEADER_SIZE, Encode(ORDER, a, m))
      && !(r.Ok? && r.value.fields == Expected(ORDER, a, m, fields))
  {
    var a := Attributes({REGS_USER}, {}, 3, false);
    OrderIsOnce();
    OneSection(ORDER, a, m, REGS_USER);
    FieldsAreOwnIff(a, m, data, fields);
  }

  // --- what a consumer of a field gets ------------------------------------------------------------------------

  /** The data a field refers to; none if it ends past the data. */
  function GetData(field: DataField, data: seq<u8>): Result<seq<u8>> {
    if |data| < field.end then Ok([])
    else if field.start <= field.end then Ok(data[field.start..field.end])
    else Err(OutOfBounds)
  }

  lemma {:induction false} FieldGives(data: seq<u8>, offset: nat, part: seq<u8>)
    requires PartAt(data, offset, part) && |data| < TWO_16
    ensures GetData(FieldAt(offset, |part|), data) == Ok(part)
  {
    SmallField(offset, |part|);
  }

  /** A section fills or clears a field; an absent id does not. */
  predicate Touches(kind: Kind, a: Attributes, name: Name) {
    (NameOf(kind) == name && (kind == ID ==> ID in a.sampleType)) || (kind == TID && name == PID_FIELD)
  }

  lemma {:induction false} Untouched(kind: Kind, a: Attributes, m: Sample, offset: nat, name: Name)
    requires !Touches(kind, a, name)
    ensures name !in Fills(kind, a, m, offset)
  {
  }

  /** An order of sections that fills each field once, but for the identifier's. */
  predicate InOrder(order: seq<Kind>) {
    && OncePerKind(order) && order != [] && order[0] == IDENTIFIER
    && forall kind :: kind in order ==> Parsed(kind)
  }

  /** After section `i`, which touches the field last, the field stays. */
  lemma {:induction false} StaysAfter(order: seq<Kind>, n: nat, i: nat, a: Attributes, m: Sample, fields: Fields,
                                      name: Name)
    requires i < n <= |order| && forall j :: i < j < n ==> !Touches(order[j], a, name)
    ensures var (first, now) := (Expected(order[..i + 1], a, m, fields), Expected(order[..n], a, m, fields));
      (name in now <==> name in first) && (name in first ==> now[name] == first[name])
  {
    if i + 1 < n {
      StaysAfter(order, n - 1, i, a, m, fields, name);
      var before := order[..n][..n - 1];
      assert before == order[..n - 1];
      Untouched(order[n - 1], a, m, HEADER_SIZE + |Encode(before, a, m)|, name);
    }
  }

  /** Only the identifier's field is touched again, by the id. */
  lemma {:induction false} TouchedOnce(order: seq<Kind>, i: nat, j: nat, a: Attributes, name: Name)
    requires InOrder(order) && i < j < |order| && Touches(order[i], a, name)
    requires order[i] == IDENTIFIER ==> ID !in a.sampleType
    ensures !Touches(order[j], a, name)
  {
    assert order[j] != order[i] && order[j] != order[0];
  }

  /** What the section at `i` does to the fields it touches is what all sections together do to them. */
  lemma {:induction false} LastTouch(order: seq<Kind>, i: nat, a: Attributes, m: Sample, fields: Fields, name: Name)
    requires InOrder(order) && i < |order| && Touches(order[i], a, name)
    requires order[i] == IDENTIFIER ==> ID !in a.sampleType
    ensures var fills := Fills(order[i], a, m, HEADER_SIZE + |Encode(order[..i], a, m)|);
      name in fills && name in Expected(order, a, m, fields) && Expected(order, a, m, fields)[name] == fills[name]
  {
    forall j | i < j < |order|
      ensures !Touches(order[j], a, name)
    {
      TouchedOnce(order, i, j, a, name);
    }
    assert order[..|order|] == order;
    StaysAfter(order, |order|, i, a, m, fields, name);
    TouchedIsFilled(order[i], a, m, HEADER_SIZE + |Encode(order[..i], a, m)|, name);
    ExpectedNext(order, i, a, m, fields);
  }

  lemma {:induction false} TouchedIsFilled(kind: Kind, a: Attributes, m: Sample, offset: nat, name: Name)
    requires Parsed(kind) && Touches(kind, a, name)
    ensures name in Fills(kind, a, m, offset)
  {
  }

  lemma {:induction false} ExpectedNext(order: seq<Kind>, i: nat, a: Attributes, m: Sample, fields: Fields)
    requires i < |order|
    ensures Expected(order[..i + 1], a, m, fields)
         == Expected(order[..i], a, m, fields) + Fills(order[i], a, m, HEADER_SIZE + |Encode(order[..i], a, m)|)
  {
    assert order[..i + 1][..i] == order[..i];
  }

  /** Each of some sections stands behind those before it. */
  lemma {:induction false} SectionAt(order: seq<Kind>, i: nat, n: nat, a: Attributes, m: Sample, data: seq<u8>,
                                     base: nat)
    requires i < n <= |order| && PartAt(data, base, Encode(order[..n], a, m))
    ensures PartAt(data, base + |Encode(order[..i], a, m)|, Section(order[i], a, m))
    decreases n
  {
    assert order[..n][..n - 1] == order[..n - 1];
    PartSplits(data, base, Encode(order[..n - 1], a, m), Section(order[n - 1], a, m));
    if i < n - 1 {
      SectionAt(order, i, n - 1, a, m, data, base);
    }
  }

  lemma {:induction false} OwnGives(kind: Kind, a: Attributes, m: Sample, data: seq<u8>, offset: nat, start: nat)
    requires Parsed(kind) && kind in a.sampleType && |data| < TWO_16 && start == offset + |PartOf(kind, m).prefix|
    requires PartAt(data, start, PartOf(kind, m).own)
    ensures var fills := Fills(kind, a, m, offset);
      NameOf(kind) in fills && GetData(fills[NameOf(kind)], data) == Ok(PartOf(kind, m).own)
  {
    FieldGives(data, start, PartOf(kind, m).own);
  }

  lemma {:induction false} FillsGive(kind: Kind, a: Attributes, m: Sample, data: seq<u8>, offset: nat)
    requires Parsed(kind) && kind in a.sampleType && |data| < TWO_16 && PartAt(data, offset, PartOf(kind, m).Bytes())
    ensures var fills := Fills(kind, a, m, offset);
      && NameOf(kind) in fills && GetData(fills[NameOf(kind)], data) == Ok(PartOf(kind, m).own)
      && (kind == TID ==> PID_FIELD in fills && GetData(fills[PID_FIELD], data) == Ok(PartOf(kind, m).prefix))
  {
    PartsAt(kind, m, data, offset);
    OwnGives(kind, a, m, data, offset, offset + |PartOf(kind, m).prefix|);
    if kind == TID {
      FieldGives(data, offset, PartOf(kind, m).prefix);
    }
  }

  /**
   In fields that stand on their own bytes, each section's field gives the bytes it was written with; the
   process id gives the first half of its section.  An identifier's field belongs to the id if there is one.
   */
  lemma {:induction false} OwnFieldsGiveOwnBytes(order: seq<Kind>, i: nat, a: Attributes, m: Sample, data: seq<u8>,
                                                 fields: Fields)
    requires InOrder(order) && Holds(order, a, m, data)
    requires i < |order| && order[i] in a.sampleType && (order[i] == IDENTIFIER ==> ID !in a.sampleType)
    ensures var (expected, kind) := (Expected(order, a, m, fields), order[i]);
      && NameOf(kind) in expected && GetData(expected[NameOf(kind)], data) == Ok(PartOf(kind, m).own)
      && (kind == TID ==> PID_FIELD in expected && GetData(expected[PID_FIELD], data) == Ok(PartOf(kind, m).prefix))
  {
    assert order[..|order|] == order;
    SectionAt(order, i, |order|, a, m, data, HEADER_SIZE);
    FillsGive(order[i], a, m, data, HEADER_SIZE + |Encode(order[..i], a, m)|);
    LastTouch(order, i, a, m, fields, NameOf(order[i]));
    if order[i] == TID {
      LastTouch(order, i, a, m, fields, PID_FIELD);
    }
  }

  /** A section that is absent leaves its field empty. */
  lemma {:induction false} AbsentFieldsAreEmpty(order: seq<Kind>, i: nat, a: Attributes, m: Sample, fields: Fields)
    requires InOrder(order) && i < |order| && order[i] !in a.sampleType && order[i] != ID
    requires order[i] == IDENTIFIER ==> ID !in a.sampleType
    ensures var (expected, kind) := (Expected(order, a, m, fields), order[i]);
      && NameOf(kind) in expected && expected[NameOf(kind)] == NO_FIELD
      && (kind == TID ==> PID_FIELD in expected && expected[PID_FIELD] == NO_FIELD)
  {
    LastTouch(order, i, a, m, fields, NameOf(order[i]));
    if order[i] == TID {
      LastTouch(order, i, a, m, fields, PID_FIELD);
    }
  }

  /** The tracepoint's id is the first two raw bytes, and there is none without raw data. */
  lemma {:induction false} EventIsInRaw(kinds: seq<Kind>, a: Attributes, m: Sample, data: seq<u8>, fields: Fields)
    requires Holds(kinds, a, m, data) && AllSupported(kinds, a, m)
    ensures Decode(kinds, a, data, Begin(fields)).Ok?
    ensures var event := Decode(kinds, a, data, Begin(fields)).value.event;
      && (RAW in kinds && RAW in a.sampleType && |m.raw| >= 2 ==> event == Some(LittleEndian(m.raw[..2])))
      && (RAW !in kinds || RAW !in a.sampleType ==> event == None)
  {
    SupportedIsExact(kinds, a, m, data, fields);
    if kinds != [] {
      var before, kind := kinds[..|kinds| - 1], kinds[|kinds| - 1];
      Unsnoc(kinds, a, m, data);
      SupportedIsExact(before, a, m, data, fields);
      EventIsInRaw(before, a, m, data, fields);
      assert RAW in kinds <==> RAW in before || RAW == kind;
      var s := Decode(before, a, data, Begin(fields)).value;
      if kind != RAW || RAW !in a.sampleType {
        KeepsEvent(kind, a, data, s);
      } else if |m.raw| >= 2 {
        RawStartsWithId(a, m, data, s);
      }
    }
  }

  lemma {:induction false} KeepsEvent(kind: Kind, a: Attributes, data: seq<u8>, s: State)
    requires kind != RAW || RAW !in a.sampleType
    ensures Step(kind, a, data, s).Ok? ==> Step(kind, a, data, s).value.event == s.event
  {
  }

  /** A sample of supported sections: every section that is present gives its own bytes. */
  lemma {:induction false} SampleGivesItsBytes(a: Attributes, m: Sample, data: seq<u8>, fields: Fields, kind: Kind)
    requires Fits(data, a, m) && PartAt(data, HEADER_SIZE, Encode(ORDER, a, m))
    requires Supported(READ, a, m) && Supported(REGS_USER, a, m) && Supported(CGROUP, a, m)
    requires Parsed(kind) && kind in a.sampleType && (kind == IDENTIFIER ==> ID !in a.sampleType)
    ensures var r := Decode(ORDER, a, data, Begin(fields));
      && r.Ok? && NameOf(kind) in r.value.fields
      && GetData(r.value.fields[NameOf(kind)], data) == Ok(PartOf(kind, m).own)
  {
    OrderIsOnce();
    FieldsAreOwnIff(a, m, data, fields);
    var i :| 0 <= i < |ORDER| && ORDER[i] == kind;
    OwnFieldsGiveOwnBytes(ORDER, i, a, m, data, fields);
  }
}
