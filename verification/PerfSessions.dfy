/** The session's parse of samples, and of the identity trailer of other records. */
module PerfSessions {
  import opened MachineInt
  import opened Bytes
  import opened Outcome
  import opened PerfRecords
  import opened PerfSamples

  /** Where the parse of a sample stands besides the fields. */
  datatype Cursor = Cursor(offset: u64, event: Option<u16>)

  /** A record that cannot be decoded up to some section cannot be decoded at all. */
  lemma {:induction false} PrefixFails(kinds: seq<Kind>, n: nat, a: Attributes, data: seq<u8>, s: State)
    requires n <= |kinds| && Decode(kinds[..n], a, data, s).Err?
    ensures Decode(kinds, a, data, s).Err?
  {
    if n == |kinds| {
      assert kinds[..n] == kinds;
    } else {
      assert kinds[..|kinds| - 1][..n] == kinds[..n];
      PrefixFails(kinds[..|kinds| - 1], n, a, data, s);
    }
  }

  lemma {:induction false} DecodeNext(kinds: seq<Kind>, k: nat, a: Attributes, data: seq<u8>, s: State)
    requires k < |kinds|
    ensures Decode(kinds[..k + 1], a, data, s)
         == match Decode(kinds[..k], a, data, s)
            case Err(e) => Err(e)
            case Ok(before) => Step(kinds[k], a, data, before)
  {
    assert kinds[..k + 1][..k] == kinds[..k];
  }

  class PerfSession {
    var fields: Fields

    constructor ()
      ensures fields == map[]
    {
      fields := map[];
    }

    method UpdateField(name: Name, start: u64, len: u64) returns (r: u64)
      modifies this
      ensures r == len && fields == old(fields)[name := FieldAt(start, len)]
    {
      fields := fields[name := FieldAt(start, len)];
      r := len;
    }

    method ResetField(name: Name)
      modifies this
      ensures fields == old(fields)[name := NO_FIELD]
    {
      var _ := UpdateField(name, 0, 0);
    }

    /** The sections before `k` were decoded. */
    ghost predicate Decoded(k: nat, a: Attributes, data: seq<u8>, before: Fields, c: Cursor)
      reads this
    {
      k <= |ORDER| && Decode(ORDER[..k], a, data, Begin(before)) == Ok(State(c.offset, fields, c.event))
    }

    /** Parses a sample; what it leaves in the fields is what decoding all sections in order gives. */
    method ParseSample(a: Attributes, data: seq<u8>) returns (r: Result<Option<u16>>)
      modifies this
      ensures var decoded := Decode(ORDER, a, data, Begin(old(fields)));
        && (r.Ok? <==> decoded.Ok?)
        && (r.Ok? ==> fields == decoded.value.fields && r.value == decoded.value.event)
    {
      ghost var before := fields;
      var c := Cursor(HEADER_SIZE, None);
      c :- ParseThread(a, data, before, c);
      c :- ParsePlace(a, data, before, c);
      c :- ParseIds(a, data, before, c);
      c :- ParseCounters(a, data, before, c);
      c :- ParseSized(a, data, before, c);
      c :- ParseUser(a, data, before, c);
      assert ORDER[..16] == ORDER;
      r := Ok(c.event);
    }

    method ParseThread(a: Attributes, data: seq<u8>, ghost before: Fields, start: Cursor) returns (r: Result<Cursor>)
      requires Decoded(0, a, data, before, start)
      modifies this
      ensures r.Ok? ==> Decoded(3, a, data, before, r.value)
      ensures r.Err? ==> Decode(ORDER, a, data, Begin(before)).Err?
    {
      var c :- ParseSection(0, IDENTIFIER, a, data, before, start);
      c :- ParseSection(1, IP, a, data, before, c);
      r := ParseSection(2, TID, a, data, before, c);
    }

    method ParsePlace(a: Attributes, data: seq<u8>, ghost before: Fields, start: Cursor) returns (r: Result<Cursor>)
      requires Decoded(3, a, data, before, start)
      modifies this
      ensures r.Ok? ==> Decoded(5, a, data, before, r.value)
      ensures r.Err? ==> Decode(ORDER, a, data, Begin(before)).Err?
    {
      var c :- ParseSection(3, TIME, a, data, before, start);
      r := ParseSection(4, ADDR, a, data, before, c);
    }

    method ParseIds(a: Attributes, data: seq<u8>, ghost before: Fields, start: Cursor) returns (r: Result<Cursor>)
      requires Decoded(5, a, data, before, start)
      modifies this
      ensures r.Ok? ==> Decoded(8, a, data, before, r.value)
      ensures r.Err? ==> Decode(ORDER, a, data, Begin(before)).Err?
    {
      var c :- ParseSection(5, ID, a, data, before, start);
      c :- ParseSection(6, STREAM_ID, a, data, before, c);
      r := ParseSection(7, CPU, a, data, before, c);
    }

    method ParseCounters(a: Attributes, data: seq<u8>, ghost before: Fields, start: Cursor) returns (r: Result<Cursor>)
      requires Decoded(8, a, data, before, start)
      modifies this
      ensures r.Ok? ==> Decoded(10, a, data, before, r.value)
      ensures r.Err? ==> Decode(ORDER, a, data, Begin(before)).Err?
    {
      var c :- ParseSection(8, PERIOD, a, data, before, start);
      r := ParseSection(9, READ, a, data, before, c);
    }

    method ParseSized(a: Attributes, data: seq<u8>, ghost before: Fields, start: Cursor) returns (r: Result<Cursor>)
      requires Decoded(10, a, data, before, start)
      modifies this
      ensures r.Ok? ==> Decoded(13, a, data, before, r.value)
      ensures r.Err? ==> Decode(ORDER, a, data, Begin(before)).Err?
    {
      var c :- ParseSection(10, CALLCHAIN, a, data, before, start);
      c :- ParseSection(11, RAW, a, data, before, c);
      r := ParseSection(12, BRANCH_STACK, a, data, before, c);
    }

    method ParseUser(a: Attributes, data: seq<u8>, ghost before: Fields, start: Cursor) returns (r: Result<Cursor>)
      requires Decoded(13, a, data, before, start)
      modifies this
      ensures r.Ok? ==> Decoded(16, a, data, before, r.value)
      ensures r.Err? ==> Decode(ORDER, a, data, Begin(before)).Err?
    {
      var c :- ParseSection(13, REGS_USER, a, data, before, start);
      c :- ParseSection(14, STACK_USER, a, data, before, c);
      r := ParseSection(15, CGROUP, a, data, before, c);
    }

    /** One section in its place. */
    method ParseSection(ghost k: nat, kind: Kind, a: Attributes, data: seq<u8>, ghost before: Fields, c: Cursor)
      returns (r: Result<Cursor>)
      requires k < |ORDER| && ORDER[k] == kind && Decoded(k, a, data, before, c)
      modifies this
      ensures r.Ok? ==> Decoded(k + 1, a, data, before, r.value)
      ensures r.Err? ==> Decode(ORDER, a, data, Begin(before)).Err?
    {
      DecodeNext(ORDER, k, a, data, Begin(before));
      ghost var s := State(c.offset, fields, c.event);
      if kind !in a.sampleType {
        ClearSection(kind);
        return Ok(c);
      }
      r := FillSection(kind, a, data, c);
      if r.Err? {
        PrefixFails(ORDER, k + 1, a, data, Begin(before));
      }
    }

    /** Clears the field of a section that is absent; the id alone is only ever updated. */
    method ClearSection(kind: Kind)
      modifies this
      ensures forall s: State :: s.fields == old(fields) ==> Absent(kind, s) == s.(fields := fields)
    {
      if kind == TID {
        ResetField(PID_FIELD);
        ResetField(TID);
      } else if kind != ID && Parsed(kind) {
        ResetField(NameOf(kind));
      }
    }

    /** Moves over a section that is present and points its field at it. */
    method FillSection(kind: Kind, a: Attributes, data: seq<u8>, c: Cursor) returns (r: Result<Cursor>)
      requires kind in a.sampleType
      modifies this
      ensures var stepped := Step(kind, a, data, State(c.offset, old(fields), c.event));
        && (r.Ok? <==> stepped.Ok?)
        && (r.Ok? ==> stepped.value == State(r.value.offset, fields, r.value.event))
    {
      var offset, event := c.offset, c.event;
      if IsWord(kind) {
        var len := UpdateField(NameOf(kind), offset, 8);
        offset := Plus(offset, len);
      } else if kind == TID {
        var len := UpdateField(PID_FIELD, offset, 4);
        offset := Plus(offset, len);
        len := UpdateField(TID, offset, 4);
        offset := Plus(offset, len);
      } else if kind == READ {
        var len := UpdateField(READ, offset, ReadFormatSize(a.readFormat));
        offset := Plus(offset, len);
      } else if kind == CALLCHAIN {
        offset :- FillCounted(kind, 8, data, offset);
      } else if kind == RAW {
        var size :- ReadHalf(data, offset);
        var rawSize: nat := size;
        var rawFieldSize := 4 + rawSize;
        var rawFieldAlignedSize := AlignToPerfRecord(rawFieldSize);
        offset := Plus(offset, 4);
        var id :- ReadQuarter(data, offset);
        event := Some(id);
        var len := UpdateField(RAW, offset, size);
        offset := Plus(offset, len);
        offset := Plus(offset, rawFieldAlignedSize - rawFieldSize);
      } else if kind == BRANCH_STACK {
        offset :- FillCounted(kind, 24, data, offset);
      } else if kind == REGS_USER {
        var abi :- ReadWord(data, offset);
        offset := Plus(offset, 8);
        var len := UpdateField(REGS_USER, offset, a.regsUserCount * (abi * 4 % TWO_64) % TWO_64);
        offset := Plus(offset, len);
      } else if kind == STACK_USER {
        offset :- FillStack(data, offset);
      } else if kind == CGROUP {
        if a.sampleType * UNPARSED != {} {
          ResetField(CGROUP);
        } else {
          var len := UpdateField(CGROUP, offset, 8);
          offset := Plus(offset, len);
        }
      }
      r := Ok(Cursor(offset, event));
    }

    /** A count and that many items of a size. */
    method FillCounted(kind: Kind, size: nat, data: seq<u8>, at: u64) returns (r: Result<u64>)
      modifies this
      ensures forall event :: var stepped := Counted(State(at, old(fields), event), data, kind, size);
        && (r.Ok? <==> stepped.Ok?)
        && (r.Ok? ==> stepped.value == State(r.value, fields, event))
    {
      var count :- ReadWord(data, at);
      var offset := Plus(at, 8);
      var len := UpdateField(kind, offset, count * size % TWO_64);
      r := Ok(Plus(offset, len));
    }

    /** The stack's bytes, of which the caller is only given those that were read. */
    method FillStack(data: seq<u8>, at: u64) returns (r: Result<u64>)
      modifies this
      ensures forall event :: var stepped := StackSection(State(at, old(fields), event), data);
        && (r.Ok? <==> stepped.Ok?)
        && (r.Ok? ==> stepped.value == State(r.value, fields, event))
    {
      var size :- ReadWord(data, at);
      var offset := Plus(at, 8);
      if size > 0 {
        var stackStart := offset;
        offset := Plus(offset, size);
        var dynSize :- ReadWord(data, offset);
        offset := Plus(offset, 8);
        var _ := UpdateField(STACK_USER, stackStart, dynSize);
      } else {
        ResetField(STACK_USER);
      }
      r := Ok(offset);
    }
  }
}
