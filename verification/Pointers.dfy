/** Pointers in the encodings of the frame section, as a producer writes them. */
module Pointers {
  import opened MachineInt
  import opened Bytes
  import opened Outcome
  import opened Leb128
  import opened CallFrame

  /** How a producer writes numbers of any length: the shortest encodings, or padded ones. */
  datatype Leb = Leb(uleb: u64 -> seq<u8>, sleb: i64 -> seq<u8>)

  /** Bytes that are read as a number, wherever they stand. */
  ghost predicate IsUleb(e: seq<u8>, v: i64) {
    forall s: seq<u8>, pos: nat, end: nat :: Spans(s, pos, end, e) ==> ReadUlebAt(s, pos) == Ok((v, end))
  }

  ghost predicate IsSleb(e: seq<u8>, v: i64) {
    forall s: seq<u8>, pos: nat, end: nat :: Spans(s, pos, end, e) ==> ReadSlebAt(s, pos) == Ok((v, end))
  }

  /** Every 64-bit number is written so that it can be read. */
  ghost predicate Correct(leb: Leb) {
    (forall v: u64 :: IsUleb(leb.uleb(v), ToI64(v))) && forall v: i64 :: IsSleb(leb.sleb(v), v)
  }

  lemma {:induction false} UlebHere(leb: Leb, v: u64, e: seq<u8>, value: i64, s: seq<u8>, pos: nat, end: nat)
    requires Correct(leb) && e == leb.uleb(v) && value == ToI64(v) && Spans(s, pos, end, e)
    ensures ReadUlebAt(s, pos) == Ok((value, end))
  {
    assert IsUleb(e, value);
  }

  lemma {:induction false} SlebHere(leb: Leb, v: i64, e: seq<u8>, s: seq<u8>, pos: nat, end: nat)
    requires Correct(leb) && e == leb.sleb(v) && Spans(s, pos, end, e)
    ensures ReadSlebAt(s, pos) == Ok((v, end))
  {
    assert IsSleb(e, v);
  }

  // --- formats ----------------------------------------------------------------------------------

  /** The low half of an encoding: two, four or eight bytes, or as many as it takes, unsigned or signed. */
  predicate KnownFormat(enc: u8) {
    var format := enc % 16;
    format == 1 || format == 2 || format == 3 || format == 4 || format == 9 || format == 10 || format == 11
    || format == 12
  }

  predicate FitsFormat(enc: u8, v: i64) {
    && (enc % 16 == 2 ==> 0 <= v < TWO_16)
    && (enc % 16 == 3 ==> 0 <= v < TWO_32)
    && (enc % 16 == 10 ==> -0x8000 <= v < 0x8000)
    && (enc % 16 == 11 ==> -0x8000_0000 <= v < 0x8000_0000)
  }

  function EncodePointer(enc: u8, v: i64, leb: Leb): seq<u8> {
    match enc % 16
    case 1 => leb.uleb(v % TWO_64)
    case 9 => leb.sleb(v)
    case 2 | 10 => Low(v % TWO_16, 2)
    case 3 | 11 => Low(v % TWO_32, 4)
    case _ => Low(v % TWO_64, 8)
  }

  /** The high half: relative to the pointer's own position, to the data given, or to nothing. */
  predicate SelfRelative(enc: u8) { enc / 16 == 1 }

  predicate DataRelative(enc: u8) { enc / 16 == 3 }

  predicate Relative(enc: u8) { SelfRelative(enc) || DataRelative(enc) }

  /** What a pointer of value `v` at `pos` refers to, given what data-relative pointers are relative to. */
  function Referent(enc: u8, v: i64, data: int, pos: nat): i64 {
    ToI64(v + (if SelfRelative(enc) then data + pos else if DataRelative(enc) then data else 0))
  }

  // --- reading them back --------------------------------------------------------------------------

  lemma {:induction false} LowIs(v: int, b: seq<u8>)
    ensures 0 <= v < TWO_16 && b == Low(v, 2) ==> Le16(b) == v
    ensures 0 <= v < TWO_32 && b == Low(v, 4) ==> Le32(b) == v
    ensures 0 <= v < TWO_64 && b == Low(v, 8) ==> Le64(b) == v
  {
    assert Span(2) == TWO_16 && Span(4) == TWO_32 && Span(8) == TWO_64;
    if 0 <= v < TWO_16 && b == Low(v, 2) {
      LowDigits(v, 2);
      LittleEndianIs(b);
    }
    if 0 <= v < TWO_32 && b == Low(v, 4) {
      LowDigits(v, 4);
      LittleEndianIs(b);
    }
    if 0 <= v < TWO_64 && b == Low(v, 8) {
      LowDigits(v, 8);
      LittleEndianIs(b);
    }
  }

  lemma {:induction false} ShortHere(v: i64, w: u16, b: seq<u8>, format: nat, s: seq<u8>, pos: nat, end: nat)
    requires (format == 2 && 0 <= v < TWO_16) || (format == 10 && -0x8000 <= v < 0x8000)
    requires w == v % TWO_16 && b == Low(w, 2) && Spans(s, pos, end, b)
    ensures ReadRawAt(format, s, pos) == Ok((v, end))
  {
    LowIs(w, b);
    assert ReadFixedAt(s, pos, 2) == Ok((b, end));
    assert w == if v < 0 then v + TWO_16 else v;
  }

  lemma {:induction false} NarrowHere(v: i64, w: u32, b: seq<u8>, format: nat, s: seq<u8>, pos: nat, end: nat)
    requires (format == 3 && 0 <= v < TWO_32) || (format == 11 && -0x8000_0000 <= v < 0x8000_0000)
    requires w == v % TWO_32 && b == Low(w, 4) && Spans(s, pos, end, b)
    ensures ReadRawAt(format, s, pos) == Ok((v, end))
  {
    LowIs(w, b);
    assert ReadFixedAt(s, pos, 4) == Ok((b, end));
    assert w == if v < 0 then v + TWO_32 else v;
  }

  lemma {:induction false} WideHere(v: i64, w: u64, b: seq<u8>, format: nat, s: seq<u8>, pos: nat, end: nat)
    requires w == v % TWO_64 && b == Low(w, 8) && Spans(s, pos, end, b) && (format == 4 || format == 12)
    ensures ReadRawAt(format, s, pos) == Ok((v, end))
  {
    LowIs(w, b);
    WordHere(b, w, format, s, pos, end);
    PatternRead(v, w);
  }

  lemma {:induction false} PatternRead(v: i64, w: u64)
    requires w == v % TWO_64
    ensures ToI64(w) == v
  {
    SignedPattern(w);
  }

  lemma {:induction false} WordHere(b: seq<u8>, w: u64, format: nat, s: seq<u8>, pos: nat, end: nat)
    requires |b| == 8 && Le64(b) == w && Spans(s, pos, end, b) && (format == 4 || format == 12)
    ensures ReadRawAt(format, s, pos) == Ok((ToI64(w), end))
  {
    assert ReadFixedAt(s, pos, 8) == Ok((b, end));
  }

  lemma {:induction false} RawHere(enc: u8, v: i64, b: seq<u8>, leb: Leb, s: seq<u8>, pos: nat, end: nat)
    requires KnownFormat(enc) && FitsFormat(enc, v) && Correct(leb) && b == EncodePointer(enc, v, leb)
    requires Spans(s, pos, end, b)
    ensures ReadRawAt(enc % 16, s, pos) == Ok((v, end))
  {
    match enc % 16
    case 1 =>
      PatternRead(v, v % TWO_64);
      UlebHere(leb, v % TWO_64, b, v, s, pos, end);
    case 9 => SlebHere(leb, v, b, s, pos, end);
    case 2 | 10 => ShortHere(v, v % TWO_16, b, enc % 16, s, pos, end);
    case 3 | 11 => NarrowHere(v, v % TWO_32, b, enc % 16, s, pos, end);
    case _ => WideHere(v, v % TWO_64, b, enc % 16, s, pos, end);
  }

  lemma {:induction false} ReferentIs(enc: u8, v: i64, data: int, pos: nat)
    ensures Relocate(enc, v, data, pos) == Referent(enc, v, data, pos)
  {
    I64Self(v);
    assert v + data + pos == v + (data + pos);
  }

  /** A pointer that stands at a position is read as what it refers to. */
  lemma {:induction false} PointerHere(enc: u8, data: int, v: i64, leb: Leb, s: seq<u8>, pos: nat, end: nat)
    requires KnownFormat(enc) && FitsFormat(enc, v) && Correct(leb) && Spans(s, pos, end, EncodePointer(enc, v, leb))
    ensures ReadValueAt(enc, data, s, pos) == Ok((Referent(enc, v, data, pos), end))
  {
    RawHere(enc, v, EncodePointer(enc, v, leb), leb, s, pos, end);
    ReferentIs(enc, v, data, pos);
  }

  /** In other formats, native pointers among them, nothing is read, and the value is zero. */
  lemma {:induction false} OtherFormatsAreZero(enc: u8, data: int, s: seq<u8>, pos: nat)
    requires !KnownFormat(enc)
    ensures ReadValueAt(enc, data, s, pos) == Ok((Referent(enc, 0, data, pos), pos))
  {
    ReferentIs(enc, 0, data, pos);
  }
}
