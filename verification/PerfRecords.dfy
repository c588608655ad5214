/** A perf sample record: how the kernel lays it out, and how the session finds its fields. */
module PerfRecords {
  import opened MachineInt
  import opened Bytes
  import opened Outcome

  /** A bit of a sample type. */
  type Kind = k: nat | k < 22

  const IP: Kind := 0
  const TID: Kind := 1
  const TIME: Kind := 2
  const ADDR: Kind := 3
  const READ: Kind := 4
  const CALLCHAIN: Kind := 5
  const ID: Kind := 6
  const CPU: Kind := 7
  const PERIOD: Kind := 8
  const STREAM_ID: Kind := 9
  const RAW: Kind := 10
  const BRANCH_STACK: Kind := 11
  const REGS_USER: Kind := 12
  const STACK_USER: Kind := 13
  const WEIGHT: Kind := 14
  const DATA_SRC: Kind := 15
  const IDENTIFIER: Kind := 16
  const TRANSACTION: Kind := 17
  const REGS_INTR: Kind := 18
  const PHYS_ADDR: Kind := 19
  const CGROUP: Kind := 21

  datatype ReadFormat = TotalTimeEnabled | TotalTimeRunning | ReadId | Group | Lost

  /** What the event was opened with. */
  datatype Attributes = Attributes(sampleType: set<Kind>, readFormat: set<ReadFormat>, regsUserCount: nat,
                                   sampleIdAll: bool)

  /** A field goes by the bit of its section; a process id, which shares a section, goes by a number of its own. */
  type Name = nat

  const PID_FIELD: Name := 22

  datatype DataField = DataField(start: u32, end: u32)

  type Fields = map<Name, DataField>

  /** The order of the sections of a sample. */
  const ORDER: seq<Kind> :=
    [IDENTIFIER, IP, TID, TIME, ADDR, ID, STREAM_ID, CPU, PERIOD, READ, CALLCHAIN, RAW, BRANCH_STACK, REGS_USER,
     STACK_USER, CGROUP]

  const HEADER_SIZE: nat := 8

  /** Sections that stand between the user stack and the control group, which the session does not parse. */
  const UNPARSED: set<Kind> := {WEIGHT, DATA_SRC, TRANSACTION, REGS_INTR, PHYS_ADDR}

  // --- the session's side -------------------------------------------------------------------------------

  /** Where the parse stands: the offset of the next section, the fields so far, and the tracepoint's id. */
  datatype State = State(offset: u64, fields: Fields, event: Option<u16>)

  function ReadWord(data: seq<u8>, offset: u64): Result<u64> {
    if offset + 8 <= |data| then Ok(LittleEndian(data[offset..offset + 8])) else Err(OutOfBounds)
  }

  function ReadHalf(data: seq<u8>, offset: u64): Result<u32> {
    if offset + 4 <= |data| then Ok(LittleEndian(data[offset..offset + 4])) else Err(OutOfBounds)
  }

  function ReadQuarter(data: seq<u8>, offset: u64): Result<u16> {
    if offset + 2 <= |data| then Ok(LittleEndian(data[offset..offset + 2])) else Err(OutOfBounds)
  }

  /** A field reference keeps the low 32 bits of its start and end, which a sum that wraps has as well. */
  function FieldAt(start: int, len: int): DataField {
    DataField(start % TWO_32, (start + len) % TWO_32)
  }

  const NO_FIELD := DataField(0, 0)

  function Update(s: State, name: Name, len: u64): State {
    s.(offset := Plus(s.offset, len), fields := s.fields[name := FieldAt(s.offset, len)])
  }

  function Reset(s: State, name: Name): State {
    s.(fields := s.fields[name := NO_FIELD])
  }

  function ReadFormatSize(formats: set<ReadFormat>): u64 {
    (if TotalTimeEnabled in formats then 8 else 0) + (if TotalTimeRunning in formats then 8 else 0)
    + (if ReadId in formats then 8 else 0) + (if Group in formats then 8 else 0) + (if Lost in formats then 8 else 0)
  }

  function One(formats: set<ReadFormat>, f: ReadFormat): nat { if f in formats then 1 else 0 }

  /** Eight bytes for every part that is asked for. */
  lemma {:induction false} FormatSizeIs(formats: set<ReadFormat>)
    ensures ReadFormatSize(formats) == 8 * |formats|
  {
    FormatsAre(formats);
    assert ReadFormatSize(formats) == 8 * One(formats, TotalTimeEnabled) + 8 * One(formats, TotalTimeRunning)
                                      + 8 * One(formats, ReadId) + 8 * One(formats, Group) + 8 * One(formats, Lost);
  }

  lemma {:induction false} FormatsAre(formats: set<ReadFormat>)
    ensures |formats| == One(formats, TotalTimeEnabled) + One(formats, TotalTimeRunning) + One(formats, ReadId)
                         + One(formats, Group) + One(formats, Lost)
  {
    OneLess(formats, TotalTimeEnabled);
    var a := formats - {TotalTimeEnabled};
    OneLess(a, TotalTimeRunning);
    var b := a - {TotalTimeRunning};
    OneLess(b, ReadId);
    var c := b - {ReadId};
    OneLess(c, Group);
    var e := c - {Group};
    OneLess(e, Lost);
    NoOtherFormat(e - {Lost});
  }

  lemma {:induction false} NoOtherFormat(formats: set<ReadFormat>)
    requires TotalTimeEnabled !in formats && TotalTimeRunning !in formats && ReadId !in formats
    requires Group !in formats && Lost !in formats
    ensures formats == {}
  {
    if f :| f in formats {
      match f
      case TotalTimeEnabled | TotalTimeRunning | ReadId | Group | Lost => assert false;
    }
  }

  lemma {:induction false} OneLess(formats: set<ReadFormat>, f: ReadFormat)
    ensures |formats| == |formats - {f}| + One(formats, f)
    ensures forall g :: g != f ==> One(formats - {f}, g) == One(formats, g)
  {
    if f in formats {
      assert formats == formats - {f} + {f};
    } else {
      assert formats == formats - {f};
    }
  }

  function AlignToPerfRecord(size: nat): nat { (size + 7) / 8 * 8 }

  /** The bytes missing to a multiple of eight. */
  function Padding(size: nat): (n: nat)
    ensures n < 8 && (size + n) % 8 == 0
  {
    if size % 8 == 0 then 0 else 8 - size % 8
  }

  /** Aligning adds what is missing, fewer than eight bytes. */
  lemma {:induction false} AlignIsPadding(size: nat)
    ensures AlignToPerfRecord(size) == size + Padding(size)
    ensures size <= AlignToPerfRecord(size) < size + 8 && AlignToPerfRecord(size) % 8 == 0
  {
    var q, r := size / 8, size % 8;
    assert size == 8 * q + r;
    assert (size + 7) / 8 == if r == 0 then q else q + 1;
  }

  /** Sections the session parses. */
  predicate Parsed(kind: Kind) { kind <= STACK_USER || kind == IDENTIFIER || kind == CGROUP }

  /** The field a section fills: an identifier and an id have the same, and a thread id also fills the process id. */
  function NameOf(kind: Kind): Name { if kind == IDENTIFIER then ID else kind }

  /** Sections that are one 64-bit word. */
  predicate IsWord(kind: Kind) {
    kind == IDENTIFIER || kind == IP || (TIME <= kind <= ADDR) || (ID <= kind <= STREAM_ID)
  }

  /** A section that is absent clears its field, except that an absent id keeps the identifier. */
  function Absent(kind: Kind, s: State): State {
    if kind == ID || !Parsed(kind) then s
    else if kind == TID then Reset(Reset(s, PID_FIELD), TID)
    else Reset(s, NameOf(kind))
  }

  /** A word holding a count, and that many items. */
  function Counted(s: State, data: seq<u8>, name: Name, size: nat): Result<State> {
    var count :- ReadWord(data, s.offset);
    Ok(Update(s.(offset := Plus(s.offset, 8)), name, count * size % TWO_64))
  }

  /** A 32-bit size and that many bytes, padded to the record alignment; the data starts with the event's id. */
  function RawSection(s: State, data: seq<u8>): Result<State> {
    var size :- ReadHalf(data, s.offset);
    var event :- ReadQuarter(data, Plus(s.offset, 4));
    var t := Update(s.(offset := Plus(s.offset, 4)), RAW, size);
    Ok(t.(offset := Plus(t.offset, AlignToPerfRecord(4 + size) - (4 + size)), event := Some(event)))
  }

  /** The register ABI tells the bytes per register: four times its number. */
  function RegsSection(a: Attributes, s: State, data: seq<u8>): Result<State> {
    var abi :- ReadWord(data, s.offset);
    Ok(Update(s.(offset := Plus(s.offset, 8)), REGS_USER, a.regsUserCount * (abi * 4 % TWO_64) % TWO_64))
  }

  /** A size, that many bytes and how many of them were read; only those are the field. */
  function StackSection(s: State, data: seq<u8>): Result<State> {
    var size :- ReadWord(data, s.offset);
    var start := Plus(s.offset, 8);
    if size == 0 then Ok(Reset(s.(offset := start), STACK_USER))
    else
      var read :- ReadWord(data, Plus(start, size));
      Ok(s.(offset := Plus(Plus(start, size), 8), fields := s.fields[STACK_USER := FieldAt(start, read)]))
  }

  /** One section, if the sample has it. */
  function Step(kind: Kind, a: Attributes, data: seq<u8>, s: State): Result<State> {
    if kind !in a.sampleType then Ok(Absent(kind, s))
    else if IsWord(kind) then Ok(Update(s, NameOf(kind), 8))
    else if kind == TID then Ok(Update(Update(s, PID_FIELD, 4), TID, 4))
    else if kind == READ then Ok(Update(s, READ, ReadFormatSize(a.readFormat)))
    else if kind == CALLCHAIN then Counted(s, data, CALLCHAIN, 8)
    else if kind == RAW then RawSection(s, data)
    else if kind == BRANCH_STACK then Counted(s, data, BRANCH_STACK, 24)
    else if kind == REGS_USER then RegsSection(a, s, data)
    else if kind == STACK_USER then StackSection(s, data)
    else if kind == CGROUP then
      Ok(if a.sampleType * UNPARSED != {} then Reset(s, CGROUP) else Update(s, CGROUP, 8))
    else Ok(s)
  }

  function Decode(kinds: seq<Kind>, a: Attributes, data: seq<u8>, s: State): Result<State> {
    if kinds == [] then Ok(s)
    else
      var before :- Decode(kinds[..|kinds| - 1], a, data, s);
      Step(kinds[|kinds| - 1], a, data, before)
  }

  // --- the kernel's side --------------------------------------------------------------------------------

  /**
   The contents of a sample.  `word` gives the sections that are one word, `between` the sections before the
   control group that the session does not parse.
   */
  datatype Sample = Sample(
    word: Kind -> u64, pid: u32, tid: u32, read: seq<u8>, ips: seq<u64>, raw: seq<u8>, branches: seq<seq<u8>>,
    abi: u64, regs: seq<u64>, stack: seq<u8>, stackRead: u64, between: seq<u8>)

  ghost function Words(vs: seq<u64>): (b: seq<u8>)
    ensures |b| == 8 * |vs|
  {
    if vs == [] then [] else Words(vs[..|vs| - 1]) + Word(vs[|vs| - 1])
  }

  function Join(parts: seq<seq<u8>>): seq<u8> {
    if parts == [] then [] else Join(parts[..|parts| - 1]) + parts[|parts| - 1]
  }

  function Zeros(n: nat): (b: seq<u8>)
    ensures |b| == n
  {
    seq(n, _ => 0)
  }

  function Size64(n: nat): u64 { n % TWO_64 }

  /** What a section's prefix, own bytes and rest are. */
  datatype Part = Part(prefix: seq<u8>, own: seq<u8>, rest: seq<u8>) {
    function Bytes(): seq<u8> { prefix + own + rest }
  }

  /** A section that is present, with the bytes a consumer of its field should get in the middle. */
  ghost function PartOf(kind: Kind, m: Sample): Part {
    if IsWord(kind) then Part([], Word(m.word(kind)), [])
    else if kind == TID then Part(Half(m.pid), Half(m.tid), [])
    else if kind == READ then Part([], m.read, [])
    else if kind == CALLCHAIN then Part(Word(Size64(|m.ips|)), Words(m.ips), [])
    else if kind == RAW then
      Part(Half(|m.raw| % TWO_32), m.raw, Zeros(Padding(4 + |m.raw|)))
    else if kind == BRANCH_STACK then Part(Word(Size64(|m.branches|)), Join(m.branches), [])
    else if kind == REGS_USER then Part(Word(m.abi), Words(m.regs), [])
    else if kind == STACK_USER then StackPart(m)
    else if kind == CGROUP then Part(m.between, Word(m.word(CGROUP)), [])
    else Part([], [], [])
  }

  /** Of the stack, only what was read is for a consumer. */
  ghost function StackPart(m: Sample): Part {
    if m.stack == [] then Part(Word(0), [], [])
    else
      var read := if m.stackRead <= |m.stack| then m.stackRead else |m.stack|;
      Part(Word(Size64(|m.stack|)), m.stack[..read], m.stack[read..] + Word(m.stackRead))
  }

  ghost function Encode(kinds: seq<Kind>, a: Attributes, m: Sample): seq<u8> {
    if kinds == [] then []
    else
      var kind := kinds[|kinds| - 1];
      Encode(kinds[..|kinds| - 1], a, m) + (if kind in a.sampleType then PartOf(kind, m).Bytes() else [])
  }

  /** What the kernel promises: registers and unparsed sections are there only when they should be. */
  predicate Wellformed(a: Attributes, m: Sample) {
    && (forall k :: 0 <= k < |m.branches| ==> |m.branches[k]| == 24)
    && |m.regs| == (if m.abi == 0 then 0 else a.regsUserCount) && m.abi <= 2
    && m.stackRead <= |m.stack|
    && (a.sampleType * UNPARSED == {} ==> m.between == [])
  }

  /** A section's own field at the offset the section starts at. */
  ghost function Own(kind: Kind, m: Sample, offset: nat): DataField {
    var part := PartOf(kind, m);
    FieldAt(offset + |part.prefix|, |part.own|)
  }

  /** The fields a section fills and clears when every reference is on its own bytes. */
  ghost function Fills(kind: Kind, a: Attributes, m: Sample, offset: nat): Fields {
    if !Parsed(kind) then map[]
    else
      var name := NameOf(kind);
      if kind !in a.sampleType then
        if kind == ID then map[]
        else if kind == TID then map[PID_FIELD := NO_FIELD, name := NO_FIELD]
        else map[name := NO_FIELD]
      else if kind == TID then map[PID_FIELD := FieldAt(offset, 4), name := Own(kind, m, offset)]
      else if kind == STACK_USER && m.stack == [] then map[name := NO_FIELD]
      else map[name := Own(kind, m, offset)]
  }

  ghost function Expected(kinds: seq<Kind>, a: Attributes, m: Sample, fields: Fields): Fields {
    if kinds == [] then fields
    else
      var before := kinds[..|kinds| - 1];
      Expected(before, a, m, fields) + Fills(kinds[|kinds| - 1], a, m, HEADER_SIZE + |Encode(before, a, m)|)
  }
}
