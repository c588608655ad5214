/** The metadata of .NET events: its parts, and the labels of event extensions. */
module NettraceMetadata {
  import opened MachineInt
  import opened Bytes
  import opened Outcome
  import opened Nettrace
  import opened NettraceTrees

  // --- the parts of the metadata ------------------------------------------------------------------

  datatype Metadata = Metadata(providerName: seq<u8>, eventId: seq<u8>, eventName: seq<u8>, keywords: seq<u8>,
                               version: seq<u8>, level: seq<u8>, fields: seq<u8>)

  /** Bytes up to and including the first zero unit, or of all complete units. */
  function StringLength(data: seq<u8>): (n: nat)
    ensures n <= |data|
  {
    if |data| < 2 then 0 else if data[0] == 0 && data[1] == 0 then 2 else 2 + StringLength(data[2..])
  }

  /** The count and the text that is read later end at the same place. */
  lemma {:induction false} StringLengthIs(data: seq<u8>)
    ensures StringAt(data).0 == data[StringLength(data)..]
  {
    if |data| >= 2 {
      assert Le16(data[..2]) == 0 <==> data[0] == 0 && data[1] == 0;
      StringLengthIs(data[2..]);
    }
  }

  method ReadStringLen(data: seq<u8>) returns (len: nat)
    ensures len == StringLength(data)
  {
    len := 0;
    while len + 2 <= |data|
      invariant len <= |data| && StringLength(data) == len + StringLength(data[len..])
    {
      len := len + 2;
      if data[len - 2] == 0 && data[len - 1] == 0 {
        return;
      }
    }
  }

  /** Some bytes and the rest, or nothing of either when there are not enough. */
  function Advance(data: seq<u8>, len: nat): (seq<u8>, seq<u8>) {
    if |data| < len then ([], []) else (data[..len], data[len..])
  }

  function MetadataAt(data: seq<u8>): Metadata {
    var (providerName, afterProvider) := Advance(data, StringLength(data));
    var (eventId, afterId) := Advance(afterProvider, 4);
    var (eventName, afterName) := Advance(afterId, StringLength(afterId));
    var (keywords, afterKeywords) := Advance(afterName, 8);
    var (version, afterVersion) := Advance(afterKeywords, 4);
    var (level, fields) := Advance(afterVersion, 4);
    Metadata(providerName, eventId, eventName, keywords, version, level, fields)
  }

  function ReadLong(data: seq<u8>): Option<u64> {
    if |data| < 8 then None else Some(Word64(data, 0))
  }

  method Parse(data: seq<u8>) returns (r: Metadata)
    ensures r == MetadataAt(data)
  {
    var len := ReadStringLen(data);
    var (providerName, afterProvider) := Advance(data, len);
    var (eventId, afterId) := Advance(afterProvider, 4);
    len := ReadStringLen(afterId);
    var (eventName, afterName) := Advance(afterId, len);
    var (keywords, afterKeywords) := Advance(afterName, 8);
    var (version, afterVersion) := Advance(afterKeywords, 4);
    var (level, fields) := Advance(afterVersion, 4);
    r := Metadata(providerName, eventId, eventName, keywords, version, level, fields);
  }

  lemma {:induction false} AdvancesPast(part: seq<u8>, rest: seq<u8>)
    ensures Advance(part + rest, |part|) == (part, rest)
  {
  }

  lemma {:induction false} NameAdvances(name: string, rest: seq<u8>)
    requires PlainName(name)
    ensures Advance(EncodeName(name) + rest, StringLength(EncodeName(name) + rest)) == (EncodeName(name), rest)
    ensures StringAt(EncodeName(name)).1 == name
  {
    var encoded := EncodeName(name);
    ReadsName(name, rest);
    StringLengthIs(encoded + rest);
    AdvancesPast(encoded, rest);
    ReadsName(name, []);
    assert encoded + [] == encoded;
    var n := StringLength(encoded + rest);
    assert |(encoded + rest)[n..]| == |rest|;
  }

  /** Parsing what a writer laid down gives every part back, and the field metadata behind them. */
  lemma {:induction false} MetadataRoundTrip(provider: string, id: seq<u8>, name: string, keywords: seq<u8>,
                                             version: seq<u8>, level: seq<u8>, fields: seq<u8>)
    requires PlainName(provider) && PlainName(name)
    requires |id| == 4 && |keywords| == 8 && |version| == 4 && |level| == 4
    ensures var data := EncodeName(provider) + (id + (EncodeName(name) + (keywords + (version + (level + fields)))));
      MetadataAt(data) == Metadata(EncodeName(provider), id, EncodeName(name), keywords, version, level, fields)
    ensures StringAt(EncodeName(provider)).1 == provider && StringAt(EncodeName(name)).1 == name
  {
    var afterVersion := level + fields;
    var afterKeywords := version + afterVersion;
    var afterName := keywords + afterKeywords;
    var afterId := EncodeName(name) + afterName;
    NameAdvances(provider, id + afterId);
    AdvancesPast(id, afterId);
    NameAdvances(name, afterName);
    AdvancesPast(keywords, afterKeywords);
    AdvancesPast(version, afterVersion);
    AdvancesPast(level, fields);
  }

  /** A number is there exactly when its part is: what is too short to hold the part gives none from there on. */
  lemma {:induction false} MissingPartsAreMissing(data: seq<u8>)
    ensures var m := MetadataAt(data);
      && (ReadInt(m.eventId).Some? <==> StringLength(data) + 4 <= |data|)
      && (ReadInt(m.eventId).None? ==> ReadLong(m.keywords).None?)
      && (ReadLong(m.keywords).None? ==> ReadInt(m.version).None?)
      && (ReadInt(m.version).None? ==> ReadInt(m.level).None?)
      && (ReadInt(m.level).None? ==> m.fields == [])
  {
  }

  // --- the labels of an extension ----------------------------------------------------------------------

  const LABEL_META: u8 := 1
  const LABEL_ACTIVITY: u8 := 2
  const LABEL_RELATED_ACTIVITY: u8 := 3

  datatype Label = Label(kind: u8, data: seq<u8>)

  /** All labels at the start of some bytes; a malformed or unknown one ends them. */
  function LabelsAt(data: seq<u8>): seq<Label> {
    if |data| <= 1 then []
    else
      match LabelAt(data)
      case None => []
      case Some(entry) => [entry] + LabelsAt(data[Size(entry)..])
  }

  /** The first label, if its bytes are all there. */
  function LabelAt(data: seq<u8>): (r: Option<Label>)
    requires |data| > 1
    ensures r.Some? ==> Size(r.value) <= |data|
  {
    var rest := data[1..];
    if data[0] == LABEL_META then
      if |rest| < 4 || |rest| - 4 < Le32(rest[..4]) then None
      else Some(Label(data[0], rest[4..4 + Le32(rest[..4])]))
    else if data[0] == LABEL_ACTIVITY || data[0] == LABEL_RELATED_ACTIVITY then
      if |rest| < 16 then None else Some(Label(data[0], rest[..16]))
    else None
  }

  /** The bytes a label takes. */
  function Size(entry: Label): nat {
    1 + (if entry.kind == LABEL_META then 4 else 0) + |entry.data|
  }

  ghost function EncodeLabel(entry: Label): (b: seq<u8>)
    ensures |b| == Size(entry)
  {
    if entry.kind == LABEL_META then [entry.kind] + (Half(|entry.data| % TWO_32) + entry.data)
    else [entry.kind] + entry.data
  }

  ghost function EncodeLabels(labels: seq<Label>): seq<u8> {
    if labels == [] then [] else EncodeLabel(labels[0]) + EncodeLabels(labels[1..])
  }

  predicate LabelOk(entry: Label) {
    if entry.kind == LABEL_META then |entry.data| < TWO_32
    else (entry.kind == LABEL_ACTIVITY || entry.kind == LABEL_RELATED_ACTIVITY) && |entry.data| == 16
  }

  /** One label and what follows it; none if it is unknown or not all there. */
  method ReadLabel(data: seq<u8>) returns (r: Option<Label>, rest: seq<u8>)
    requires |data| > 1
    ensures r == LabelAt(data) && (r.Some? ==> rest == data[Size(r.value)..])
  {
    var kind := data[0];
    rest := data[1..];
    if kind == LABEL_META {
      if |rest| < 4 {
        return None, rest;
      }
      var len := Le32(rest[..4]);
      rest := rest[4..];
      if |rest| < len {
        return None, rest;
      }
      r := Some(Label(LABEL_META, rest[..len]));
      assert data[1..][4..4 + len] == rest[..len];
      rest := rest[len..];
      assert rest == data[5 + len..];
    } else if kind == LABEL_ACTIVITY || kind == LABEL_RELATED_ACTIVITY {
      if |rest| < 16 {
        return None, rest;
      }
      r := Some(Label(kind, rest[..16]));
      rest := rest[16..];
      assert rest == data[17..];
    } else {
      r := None;
    }
  }

  lemma {:induction false} Onward(before: seq<Label>, entry: Label, rest: seq<Label>)
    ensures before + ([entry] + rest) == before + [entry] + rest
  {
  }

  /** The parser hands out the labels at the start of an untrusted extension, three at most, and stays in range. */
  method ParseEventExtensionV1(data: seq<u8>) returns (outputs: seq<Label>)
    ensures var labels := LabelsAt(data);
      outputs == if |labels| <= 3 then labels else labels[..3]
  {
    outputs := [];
    var extension, count := data, 0;
    while |extension| > 1 && count < 3
      invariant count == |outputs| <= 3 && LabelsAt(data) == outputs + LabelsAt(extension)
      decreases 3 - count
    {
      var entry, rest := ReadLabel(extension);
      if entry.None? {
        return;
      }
      Onward(outputs, entry.value, LabelsAt(rest));
      outputs, extension, count := outputs + [entry.value], rest, count + 1;
    }
  }

  lemma {:induction false} ReadsMeta(prefix: seq<u8>, body: seq<u8>, tail: seq<u8>)
    requires |prefix| == 4 && Le32(prefix) == |body|
    ensures LabelAt([LABEL_META] + (prefix + body) + tail) == Some(Label(LABEL_META, body))
  {
    var data := [LABEL_META] + (prefix + body) + tail;
    var rest := data[1..];
    assert rest == prefix + (body + tail);
    assert rest[..4] == prefix && rest[4..] == body + tail;
    assert rest[4..4 + |body|] == (body + tail)[..|body|] == body;
  }

  lemma {:induction false} ReadsLabel(entry: Label, tail: seq<u8>)
    requires LabelOk(entry) && |EncodeLabel(entry) + tail| > 1
    ensures LabelAt(EncodeLabel(entry) + tail) == Some(entry)
  {
    if entry.kind == LABEL_META {
      var n: u32 := |entry.data|;
      assert |entry.data| % TWO_32 == n;
      LittleEndianIs(Half(n));
      ReadsMeta(Half(n), entry.data, tail);
    } else {
      var data := [entry.kind] + entry.data + tail;
      assert data[1..] == entry.data + tail;
    }
  }

  predicate AllOk(labels: seq<Label>) {
    forall k :: 0 <= k < |labels| ==> LabelOk(labels[k])
  }

  /** Parsing encoded labels gives them back and goes on with what follows. */
  lemma {:induction false} LabelsRoundTrip(labels: seq<Label>, tail: seq<u8>)
    requires AllOk(labels)
    ensures LabelsAt(EncodeLabels(labels) + tail) == labels + LabelsAt(tail)
  {
    if labels == [] {
      assert EncodeLabels(labels) + tail == tail;
    } else {
      LabelsRoundTrip(labels[1..], tail);
      FirstOfLabels(labels, tail);
      Assemble(labels, LabelsAt(EncodeLabels(labels) + tail), LabelsAt(EncodeLabels(labels[1..]) + tail),
               LabelsAt(tail));
    }
  }

  lemma {:induction false} FirstOfLabels(labels: seq<Label>, tail: seq<u8>)
    requires labels != [] && LabelOk(labels[0])
    ensures LabelsAt(EncodeLabels(labels) + tail) == [labels[0]] + LabelsAt(EncodeLabels(labels[1..]) + tail)
  {
    var first, others := EncodeLabel(labels[0]), EncodeLabels(labels[1..]) + tail;
    assert EncodeLabels(labels) + tail == first + others;
    ReadsLabel(labels[0], others);
    FirstLabel(first, others, labels[0]);
  }

  lemma {:induction false} Assemble(labels: seq<Label>, whole: seq<Label>, rest: seq<Label>, after: seq<Label>)
    requires labels != [] && whole == [labels[0]] + rest && rest == labels[1..] + after
    ensures whole == labels + after
  {
  }

  lemma {:induction false} FirstLabel(first: seq<u8>, others: seq<u8>, entry: Label)
    requires |first| == Size(entry) > 1 && LabelAt(first + others) == Some(entry)
    ensures LabelsAt(first + others) == [entry] + LabelsAt(others)
  {
    assert (first + others)[|first|..] == others;
  }
}
