/** The identity of records that are not samples, which stands at their end. */
module PerfTrailers {
  import opened MachineInt
  import opened Bytes
  import opened Outcome
  import opened PerfRecords
  import opened PerfLayouts
  import opened PerfSamples
  import opened PerfSessions

  datatype SampleIdOffsets = SampleIdOffsets(
    pid: Option<nat>, tid: Option<nat>, time: Option<nat>, id: Option<nat>, streamId: Option<nat>, cpu: Option<nat>,
    identifier: Option<nat>, size: nat)

  /** The parts a trailer can have. */
  predicate InTrailer(kind: Kind) {
    kind == TID || kind == TIME || kind == ID || kind == STREAM_ID || kind == CPU || kind == IDENTIFIER
  }

  /** A part that is present takes eight bytes. */
  function Len(kind: Kind, a: Attributes): nat { if kind in a.sampleType then 8 else 0 }

  /** Where a part would be: behind those before it. */
  function PlaceOf(kind: Kind, a: Attributes): nat
    requires InTrailer(kind)
  {
    if kind == TID then 0
    else if kind == TIME then Len(TID, a)
    else if kind == ID then Len(TID, a) + Len(TIME, a)
    else if kind == STREAM_ID then Len(TID, a) + Len(TIME, a) + Len(ID, a)
    else if kind == CPU then Len(TID, a) + Len(TIME, a) + Len(ID, a) + Len(STREAM_ID, a)
    else Len(TID, a) + Len(TIME, a) + Len(ID, a) + Len(STREAM_ID, a) + Len(CPU, a)
  }

  function TrailerSize(a: Attributes): nat { PlaceOf(IDENTIFIER, a) + Len(IDENTIFIER, a) }

  function Present(kind: Kind, a: Attributes, more: nat): Option<nat>
    requires InTrailer(kind)
  {
    if kind in a.sampleType then Some(PlaceOf(kind, a) + more) else None
  }

  /** The places are found by adding up sizes; there are none without the flag. */
  method NonSampledIdOffsets(a: Attributes) returns (r: Option<SampleIdOffsets>)
    ensures r.Some? <==> a.sampleIdAll
    ensures r.Some? ==> r.value.size == TrailerSize(a)
    ensures r.Some? ==> r.value.pid == Present(TID, a, 0) && r.value.tid == Present(TID, a, 4)
    ensures r.Some? ==> r.value.time == Present(TIME, a, 0) && r.value.id == Present(ID, a, 0)
    ensures r.Some? ==> r.value.streamId == Present(STREAM_ID, a, 0) && r.value.cpu == Present(CPU, a, 0)
    ensures r.Some? ==> r.value.identifier == Present(IDENTIFIER, a, 0)
  {
    if !a.sampleIdAll {
      return None;
    }
    var offset := SampleIdOffsets(None, None, None, None, None, None, None, 0);
    if TID in a.sampleType {
      offset := offset.(pid := Some(offset.size), size := offset.size + 4);
      offset := offset.(tid := Some(offset.size), size := offset.size + 4);
    }
    assert offset.size == PlaceOf(TIME, a);
    if TIME in a.sampleType {
      offset := offset.(time := Some(offset.size), size := offset.size + 8);
    }
    assert offset.size == PlaceOf(ID, a);
    if ID in a.sampleType {
      offset := offset.(id := Some(offset.size), size := offset.size + 8);
    }
    assert offset.size == PlaceOf(STREAM_ID, a);
    if STREAM_ID in a.sampleType {
      offset := offset.(streamId := Some(offset.size), size := offset.size + 8);
    }
    assert offset.size == PlaceOf(CPU, a);
    if CPU in a.sampleType {
      offset := offset.(cpu := Some(offset.size), size := offset.size + 8);
    }
    assert offset.size == PlaceOf(IDENTIFIER, a);
    if IDENTIFIER in a.sampleType {
      offset := offset.(identifier := Some(offset.size), size := offset.size + 8);
    }
    r := Some(offset);
  }

  // --- the fields ---------------------------------------------------------------------------------------------

  /** The field of a part of a trailer, or nothing. */
  function PartField(kind: Kind, a: Attributes, size: u16, from: u16, len: nat): DataField
    requires InTrailer(kind)
  {
    if kind in a.sampleType then FieldAt(Plus(Minus(size, TrailerSize(a)), PlaceOf(kind, a) + from), len) else NO_FIELD
  }

  /** Every field stands at the place of its part, counted from the end; the identifier overrides the id. */
  ghost predicate OnTrailer(a: Attributes, size: u16, fields: Fields) {
    && {PID_FIELD, TID, TIME, ID, STREAM_ID, CPU} <= fields.Keys
    && fields[PID_FIELD] == PartField(TID, a, size, 0, 4) && fields[TID] == PartField(TID, a, size, 4, 4)
    && fields[TIME] == PartField(TIME, a, size, 0, 8)
    && fields[STREAM_ID] == PartField(STREAM_ID, a, size, 0, 8)
    && fields[CPU] == PartField(CPU, a, size, 0, 8)
    && fields[ID] == PartField(if IDENTIFIER in a.sampleType then IDENTIFIER else ID, a, size, 0, 8)
  }

  /** Points a field at some bytes of a part that is present, or clears it, and moves on. */
  method TakePart(session: PerfSession, name: Name, place: Option<nat>, at: u64, len: u16,
                  ghost kind: Kind, ghost a: Attributes, ghost size: u16, ghost from: u16) returns (next: u64)
    requires InTrailer(kind) && place == Present(kind, a, from)
    requires at == Plus(Minus(size, TrailerSize(a)), PlaceOf(kind, a) + if kind in a.sampleType then from else 0)
    modifies session
    ensures session.fields == old(session.fields)[name := PartField(kind, a, size, from, len)]
    ensures next == Plus(Minus(size, TrailerSize(a)), PlaceOf(kind, a) + if kind in a.sampleType then from + len else 0)
  {
    next := at;
    if place.Some? {
      var step := session.UpdateField(name, at, len);
      next := Plus(next, step);
    } else {
      session.ResetField(name);
    }
  }

  /** Walks the trailer of a record that is not a sample, adding up the offsets again; other fields stay. */
  method ParseTrailer(session: PerfSession, a: Attributes, size: u16)
    modifies session
    ensures a.sampleIdAll ==> OnTrailer(a, size, session.fields)
    ensures !a.sampleIdAll ==>
              session.fields == old(session.fields)[PID_FIELD := NO_FIELD][TID := NO_FIELD][TIME := NO_FIELD]
                                                   [ID := NO_FIELD][STREAM_ID := NO_FIELD][CPU := NO_FIELD]
    ensures forall name :: name in old(session.fields) && name !in {PID_FIELD, TID, TIME, ID, STREAM_ID, CPU} ==>
                             name in session.fields && session.fields[name] == old(session.fields)[name]
  {
    var offsets := NonSampledIdOffsets(a);
    match offsets
    case Some(places) =>
      var offset := TakeFirst(session, a, size, places);
      TakeRest(session, a, size, places, offset);
    case None =>
      ClearIds(session);
  }

  method ClearIds(session: PerfSession)
    modifies session
    ensures session.fields == old(session.fields)[PID_FIELD := NO_FIELD][TID := NO_FIELD][TIME := NO_FIELD]
                                                 [ID := NO_FIELD][STREAM_ID := NO_FIELD][CPU := NO_FIELD]
  {
    session.ResetField(PID_FIELD);
    session.ResetField(TID);
    session.ResetField(TIME);
    session.ResetField(ID);
    session.ResetField(STREAM_ID);
    session.ResetField(CPU);
  }

  /** The parts up to the id. */
  method TakeFirst(session: PerfSession, a: Attributes, size: u16, places: SampleIdOffsets) returns (next: u64)
    requires places.pid == Present(TID, a, 0) && places.tid == Present(TID, a, 4)
    requires places.time == Present(TIME, a, 0) && places.id == Present(ID, a, 0) && places.size == TrailerSize(a)
    modifies session
    ensures session.fields
         == old(session.fields)[PID_FIELD := PartField(TID, a, size, 0, 4)][TID := PartField(TID, a, size, 4, 4)]
              [TIME := PartField(TIME, a, size, 0, 8)][ID := PartField(ID, a, size, 0, 8)]
    ensures next == Plus(Minus(size, TrailerSize(a)), PlaceOf(STREAM_ID, a))
  {
    next := Minus(size, places.size);
    next := TakePart(session, PID_FIELD, places.pid, next, 4, TID, a, size, 0);
    next := TakePart(session, TID, places.tid, next, 4, TID, a, size, 4);
    next := TakePart(session, TIME, places.time, next, 8, TIME, a, size, 0);
    next := TakePart(session, ID, places.id, next, 8, ID, a, size, 0);
  }

  /** The parts behind the id; an identifier takes the id's field. */
  method TakeRest(session: PerfSession, a: Attributes, size: u16, places: SampleIdOffsets, at: u64)
    requires places.streamId == Present(STREAM_ID, a, 0) && places.cpu == Present(CPU, a, 0)
    requires places.identifier == Present(IDENTIFIER, a, 0)
    requires at == Plus(Minus(size, TrailerSize(a)), PlaceOf(STREAM_ID, a)) && ID in session.fields
    modifies session
    ensures session.fields
         == old(session.fields)[STREAM_ID := PartField(STREAM_ID, a, size, 0, 8)][CPU := PartField(CPU, a, size, 0, 8)]
              [ID := if IDENTIFIER in a.sampleType then PartField(IDENTIFIER, a, size, 0, 8)
                     else old(session.fields[ID])]
  {
    var offset := TakePart(session, STREAM_ID, places.streamId, at, 8, STREAM_ID, a, size, 0);
    offset := TakePart(session, CPU, places.cpu, offset, 8, CPU, a, size, 0);
    if places.identifier.Some? {
      var _ := session.UpdateField(ID, offset, 8);
    }
  }

  // --- what they give ---------------------------------------------------------------------------------------------

  /** A part as it stands in a record. */
  ghost function TrailerPart(kind: Kind, a: Attributes, m: Sample): (b: seq<u8>)
    requires InTrailer(kind)
    ensures |b| == Len(kind, a)
  {
    if kind !in a.sampleType then [] else if kind == TID then Half(m.pid) + Half(m.tid) else Word(m.word(kind))
  }

  /** The trailer the kernel writes: all parts that are present, in the order of their places. */
  ghost function TrailerBytes(a: Attributes, m: Sample): (b: seq<u8>)
    ensures |b| == TrailerSize(a)
  {
    var tid, time, id := TrailerPart(TID, a, m), TrailerPart(TIME, a, m), TrailerPart(ID, a, m);
    var streamId, cpu := TrailerPart(STREAM_ID, a, m), TrailerPart(CPU, a, m);
    tid + time + id + streamId + cpu + TrailerPart(IDENTIFIER, a, m)
  }

  lemma {:induction false} PartsStand(a: Attributes, m: Sample, data: seq<u8>, base: nat, kind: Kind)
    requires InTrailer(kind) && PartAt(data, base, TrailerBytes(a, m))
    ensures PartAt(data, base + PlaceOf(kind, a), TrailerPart(kind, a, m))
  {
    SixParts(data, base, TrailerPart(TID, a, m), TrailerPart(TIME, a, m), TrailerPart(ID, a, m),
             TrailerPart(STREAM_ID, a, m), TrailerPart(CPU, a, m), TrailerPart(IDENTIFIER, a, m));
  }

  lemma {:induction false} SixParts(data: seq<u8>, base: nat, p: seq<u8>, q: seq<u8>, r: seq<u8>, s: seq<u8>,
                                    t: seq<u8>,
                                    u: seq<u8>)
    requires PartAt(data, base, p + q + r + s + t + u)
    ensures PartAt(data, base, p) && PartAt(data, base + |p|, q) && PartAt(data, base + |p| + |q|, r)
    ensures PartAt(data, base + |p| + |q| + |r|, s) && PartAt(data, base + |p| + |q| + |r| + |s|, t)
    ensures PartAt(data, base + |p| + |q| + |r| + |s| + |t|, u)
  {
    PartSplits(data, base, p + q + r + s + t, u);
    PartSplits(data, base, p + q + r + s, t);
    PartSplits(data, base, p + q + r, s);
    PartSplits(data, base, p + q, r);
    PartSplits(data, base, p, q);
  }

  /** A part's field gives what the part was written with, or nothing if it is absent. */
  lemma {:induction false} PartGives(a: Attributes, m: Sample, data: seq<u8>, kind: Kind)
    requires |data| < TWO_16 && TrailerSize(a) <= |data| && InTrailer(kind) && kind != TID
    requires PartAt(data, |data| - TrailerSize(a), TrailerBytes(a, m))
    ensures GetData(PartField(kind, a, |data|, 0, 8), data) == Ok(TrailerPart(kind, a, m))
  {
    if kind in a.sampleType {
      var offset := |data| - TrailerSize(a) + PlaceOf(kind, a);
      PartsStand(a, m, data, |data| - TrailerSize(a), kind);
      FieldGives(data, offset, TrailerPart(kind, a, m));
    }
  }

  lemma {:induction false} TidGives(a: Attributes, m: Sample, data: seq<u8>)
    requires |data| < TWO_16 && TrailerSize(a) <= |data| && TID in a.sampleType
    requires PartAt(data, |data| - TrailerSize(a), TrailerBytes(a, m))
    ensures GetData(PartField(TID, a, |data|, 0, 4), data) == Ok(Half(m.pid))
    ensures GetData(PartField(TID, a, |data|, 4, 4), data) == Ok(Half(m.tid))
  {
    var offset := |data| - TrailerSize(a);
    PartsStand(a, m, data, offset, TID);
    PartSplits(data, offset, Half(m.pid), Half(m.tid));
    FieldGives(data, offset, Half(m.pid));
    FieldGives(data, offset + 4, Half(m.tid));
  }

  /**
   Of a record that ends with the trailer the kernel writes, each field gives its own part, and a field whose
   part is absent gives nothing.  The id's field gives the identifier if there is one.
   */
  lemma {:induction false} TrailerGivesItsBytes(a: Attributes, m: Sample, data: seq<u8>, fields: Fields)
    requires |data| < TWO_16 && TrailerSize(a) <= |data| && OnTrailer(a, |data|, fields)
    requires PartAt(data, |data| - TrailerSize(a), TrailerBytes(a, m))
    ensures GetData(fields[PID_FIELD], data) == Ok(if TID in a.sampleType then Half(m.pid) else [])
    ensures GetData(fields[TID], data) == Ok(if TID in a.sampleType then Half(m.tid) else [])
    ensures forall kind: Kind :: kind == TIME || kind == STREAM_ID || kind == CPU ==>
                                   GetData(fields[kind], data) == Ok(TrailerPart(kind, a, m))
    ensures GetData(fields[ID], data)
         == Ok(TrailerPart(if IDENTIFIER in a.sampleType then IDENTIFIER else ID, a, m))
  {
    if TID in a.sampleType {
      TidGives(a, m, data);
    }
    PartGives(a, m, data, TIME);
    PartGives(a, m, data, STREAM_ID);
    PartGives(a, m, data, CPU);
    PartGives(a, m, data, if IDENTIFIER in a.sampleType then IDENTIFIER else ID);
  }
}
