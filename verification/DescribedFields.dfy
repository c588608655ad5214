/** Payloads that a descriptor points to, undone by the direct read. */
module DescribedFields {
  import opened MachineInt
  import opened Bytes
  import opened Outcome
  import opened EventFormats

  /** The descriptor of a payload: its length in the high half of a word, the distance to it in the low half. */
  function Descriptor(distance: u16, length: u16): (b: seq<u8>)
    ensures |b| == 4
  {
    Low(length * TWO_16 + distance, 4)
  }

  /** Where the payload is: from the start of the record, or from the end of the descriptor. */
  function PayloadAt(location: LocationType, offset: nat, distance: u16): nat {
    if location.DynRelative? then offset + 4 + distance else distance
  }

  lemma {:induction false} DescriptorIsRead(distance: u16, length: u16, b: seq<u8>)
    requires b == Descriptor(distance, length)
    ensures Le32(b) / TWO_16 == length && Le32(b) % TWO_16 == distance
  {
    var word: int := length * TWO_16 + distance;
    assert Span(4) == TWO_32;
    LowDigits(word, 4);
    LittleEndianIs(b);
    Halves(word, length, distance);
  }

  lemma {:induction false} Halves(word: int, length: u16, distance: u16)
    requires word == length * TWO_16 + distance
    ensures word / TWO_16 == length && word % TWO_16 == distance
  {
  }

  /** A direct read follows the descriptor to the payload; one that would end past the record gives nothing. */
  lemma {:induction false} DescribedIs(location: LocationType, size: nat, data: seq<u8>, offset: nat, end: nat,
                                       distance: u16, length: u16, start: nat)
    requires location.DynRelative? || location.DynAbsolute?
    requires end == offset + 4 && Spans(data, offset, end, Descriptor(distance, length))
    requires start == PayloadAt(location, offset, distance)
    ensures Field(size, location, offset, data)
         == if start + length <= |data| then data[start..start + length] else []
  {
    DescriptorIsRead(distance, length, data[offset..end]);
  }

  /** So the value that stands where its descriptor says is read back. */
  lemma {:induction false} DescribedReadsValue(location: LocationType, size: nat, data: seq<u8>, offset: nat, end: nat,
                                               distance: u16, v: seq<u8>, start: nat)
    requires location.DynRelative? || location.DynAbsolute?
    requires |v| < TWO_16 && end == offset + 4 && Spans(data, offset, end, Descriptor(distance, |v|))
    requires start == PayloadAt(location, offset, distance) && Spans(data, start, start + |v|, v)
    ensures Field(size, location, offset, data) == v
  {
    DescribedIs(location, size, data, offset, end, distance, |v|, start);
  }

  /** Without room for a descriptor nothing is read. */
  lemma {:induction false} NoDescriptor(location: LocationType, size: nat, data: seq<u8>, offset: nat)
    requires (location.DynRelative? || location.DynAbsolute?) && offset + 4 > |data|
    ensures Field(size, location, offset, data) == []
  {
  }

  /** An array without an element size is counted in bytes. */
  lemma {:induction false} SizelessIsBytes(data: seq<u8>, offset: nat, end: nat, v: seq<u8>)
    requires |v| < TWO_16 && Spans(data, offset, end, Bytes16(|v|) + v)
    ensures Field(0, StaticLenPrefixArray, offset, data) == v
  {
    Both(data, offset, end, Bytes16(|v|), v, offset + 2);
  }

  /** A record of the kernel: a fixed part with the descriptors in it, and the payloads behind. */
  function Place(fixed: seq<u8>, offset: nat, location: LocationType, v: seq<u8>): seq<u8>
    requires offset + 4 <= |fixed| < TWO_16 && |v| < TWO_16
  {
    var distance := if location.DynRelative? then |fixed| - (offset + 4) else |fixed|;
    fixed[..offset] + Descriptor(distance, |v|) + fixed[offset + 4..] + v
  }

  /** The accessor of a described field behind fixed-size ones reads the payload, whatever follows it. */
  lemma {:induction false} DescribedUndoesPlace(fields: seq<EventField>, k: nat, fixed: seq<u8>, v: seq<u8>,
                                                tail: seq<u8>)
    requires k < |fields| && (fields[k].location.DynRelative? || fields[k].location.DynAbsolute?)
    requires forall i :: 0 <= i < k ==> fields[i].size != 0
    requires fields[k].offset + 4 <= |fixed| < TWO_16 && |v| < TWO_16
    ensures AccessorAt(fields, k).Some?
    ensures Access(AccessorAt(fields, k).value, Place(fixed, fields[k].offset, fields[k].location, v) + tail) == v
  {
    NothingToSkip(fields, k);
    var f := fields[k];
    var distance := if f.location.DynRelative? then |fixed| - (f.offset + 4) else |fixed|;
    var data := Place(fixed, f.offset, f.location, v) + tail;
    var (head, word) := (fixed[..f.offset], Descriptor(distance, |v|));
    PartsOf(head, word, fixed[f.offset + 4..], v, tail, data);
    DescribedReadsValue(f.location, f.size, data, f.offset, f.offset + 4, distance, v, |fixed|);
  }

  lemma {:induction false} PartsOf(a: seq<u8>, b: seq<u8>, c: seq<u8>, d: seq<u8>, e: seq<u8>, data: seq<u8>)
    requires data == a + b + c + d + e
    ensures Spans(data, |a|, |a| + |b|, b)
    ensures Spans(data, |a| + |b| + |c|, |a| + |b| + |c| + |d|, d)
  {
  }

  lemma {:induction false} NothingToSkip(fields: seq<EventField>, k: nat)
    requires k <= |fields| && forall i :: 0 <= i < k ==> fields[i].size != 0
    ensures SkipsBefore(fields, k) == Ok([])
  {
    if k > 0 {
      NothingToSkip(fields, k - 1);
      var none: seq<FieldSkip> := [];
      assert SkipFor(fields[k - 1], SizeBefore(fields, k - 1)) == Ok(none) && none + none == none;
    }
  }
}
