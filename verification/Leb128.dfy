/** LEB128 readers of the call-frame parser (section 7.6 of DWARF 4). */
module Leb128 {
  import opened MachineInt
  import opened Outcome

  function Payload(b: u8): nat { b as int % 128 }

  predicate Continues(b: u8) { b as int >= 128 }

  /** Number of bytes up to and including the first byte without the continuation bit; None if there is none. */
  function EncodedLength(s: seq<u8>): (n: Option<nat>)
    ensures n.Some? ==> 1 <= n.value <= |s| && !Continues(s[n.value - 1])
    ensures n.Some? ==> forall i :: 0 <= i < n.value - 1 ==> Continues(s[i])
    ensures n.None? ==> forall i :: 0 <= i < |s| ==> Continues(s[i])
  {
    if s == [] then None
    else if !Continues(s[0]) then Some(1)
    else
      match EncodedLength(s[1..])
      case None => None
      case Some(n) => Some(n + 1)
  }

  lemma {:induction false} EncodedLengthIs(s: seq<u8>, n: nat)
    requires 1 <= n <= |s| && !Continues(s[n - 1])
    requires forall i :: 0 <= i < n - 1 ==> Continues(s[i])
    ensures EncodedLength(s) == Some(n)
  {
  }

  /** The number an encoding stands for, base 128, least significant digit first. */
  function Digits(s: seq<u8>): nat {
    if s == [] then 0 else Payload(s[0]) + 128 * Digits(s[1..])
  }

  /** The signed number an encoding stands for: bit 6 of the last byte is its sign. */
  function SignedDigits(s: seq<u8>): int
    requires s != []
  {
    if |s| == 1 then (if Payload(s[0]) >= 64 then Payload(s[0]) - 128 else Payload(s[0]))
    else Payload(s[0]) + 128 * SignedDigits(s[1..])
  }

  /** What the readers accumulate, for encodings of any length (shift amounts wrap at 64). */
  function Accumulate(s: seq<u8>): nat {
    if s == [] then 0
    else Or(Accumulate(s[..|s| - 1]), ShiftLeft(Payload(s[|s| - 1]), 7 * (|s| - 1)))
  }

  lemma {:induction false} Scale7(v: nat, n: nat)
    ensures Scale(v, n + 7) == 128 * Scale(v, n)
  {
    ScaleTwice(v, n, 7);
    ScaleValues(Scale(v, n));
  }

  lemma {:induction false} DigitsSnoc(s: seq<u8>, b: u8)
    ensures Digits(s + [b]) == Digits(s) + Scale(Payload(b), 7 * |s|)
    ensures Digits(s) < Pow2(7 * |s|)
  {
    if s == [] {
      assert (s + [b])[1..] == [];
    } else {
      DigitsSnoc(s[1..], b);
      assert (s + [b])[1..] == s[1..] + [b];
      var k := 7 * (|s| - 1);
      assert 7 * |s| == k + 7;
      Scale7(1, k);
      Scale7(Payload(b), k);
    }
  }

  lemma {:induction false} PayloadRoom(p: nat, bit: nat)
    requires p < 128
    ensures Scale(p, bit) + Pow2(bit) <= Pow2(bit + 7)
  {
    ScaleSum(p, 1, bit);
    ScaleMonotonic(p + 1, 128, bit);
    ScaleTwice(1, 7, bit);
    ScaleValues(1);
  }

  lemma {:induction false} ShiftInRange(p: nat, bit: nat)
    requires p < 128 && bit <= 57
    ensures ShiftLeft(p, bit) == Scale(p, bit) < Pow2(bit + 7)
  {
    PayloadRoom(p, bit);
    Pow2Bound(bit + 7);
    Pow2Bound(bit);
    assert bit % 64 == bit;
    SmallMod(Scale(p, bit));
  }

  /** Up to nine bytes the accumulated value is exact. */
  lemma {:induction false} AccumulateExact(s: seq<u8>)
    requires |s| <= 9
    ensures Accumulate(s) == Digits(s) < Pow2(7 * |s|)
  {
    if s != [] {
      var init, b, k := s[..|s| - 1], s[|s| - 1], 7 * (|s| - 1);
      AccumulateExact(init);
      DigitsSnoc(init, b);
      assert init + [b] == s;
      ShiftInRange(Payload(b), k);
      PayloadRoom(Payload(b), k);
      OrDisjoint(Digits(init), Payload(b), k);
    }
  }

  lemma {:induction false} TopBit(p: nat, bit: nat)
    requires bit == 63
    ensures ShiftLeft(p, bit) == (p % 2) * TWO_63 == Scale(p % 2, bit)
    ensures Scale(p, bit) == (p / 2) * TWO_64 + (p % 2) * TWO_63
  {
    ScaleValues(p);
    ScaleValues(p % 2);
    ModTwo64((p % 2) * TWO_63, p / 2);
  }

  /** Of a tenth byte only the lowest bit survives, which is reduction modulo 2^64. */
  lemma {:induction false} AccumulateTen(s: seq<u8>, bit: nat)
    requires |s| == 10 && bit == 63
    ensures Accumulate(s) == Digits(s) % TWO_64
  {
    var init, p := s[..9], Payload(s[9]);
    AccumulateExact(init);
    DigitsSnoc(init, s[9]);
    assert init + [s[9]] == s;
    TopBit(p, bit);
    Pow2Bound(bit);
    OrDisjoint(Digits(init), p % 2, bit);
    assert Accumulate(s) == Digits(init) + (p % 2) * TWO_63;
    assert Digits(s) == Digits(init) + (p % 2) * TWO_63 + (p / 2) * TWO_64;
    ModTwo64(Digits(init) + (p % 2) * TWO_63, p / 2);
    SmallMod(Digits(init) + (p % 2) * TWO_63);
  }

  lemma {:induction false} AccumulateValue(s: seq<u8>)
    requires |s| <= 10
    ensures Accumulate(s) == Digits(s) % TWO_64
  {
    if |s| == 10 {
      AccumulateTen(s, 63);
    } else {
      AccumulateExact(s);
      Pow2Bound(7 * |s|);
      SmallMod(Digits(s));
    }
  }

  /** The pattern of the sign-extending or: all bits from `bit` upwards. */
  function SignBits(bit: nat): u64 {
    (TWO_64 - ShiftLeft(1, bit) as int) % TWO_64
  }

  /** What read_sleb leaves in its 64-bit accumulator. */
  function AccumulateSigned(s: seq<u8>): nat
    requires s != []
  {
    var bit, last := 7 * |s|, s[|s| - 1];
    if bit < 64 && Payload(last) >= 64 then Or(Accumulate(s), SignBits(bit)) else Accumulate(s)
  }

  lemma {:induction false} SignedDigitsValue(s: seq<u8>)
    requires s != []
    ensures SignedDigits(s) == Digits(s) - (if Payload(s[|s| - 1]) >= 64 then Pow2(7 * |s|) else 0)
  {
    ScaleValues(1);
    if |s| > 1 {
      SignedDigitsValue(s[1..]);
      Scale7(1, 7 * (|s| - 1));
      assert 7 * (|s| - 1) + 7 == 7 * |s|;
    }
  }

  lemma {:induction false} SignBitsValue(k: nat)
    requires 1 <= k < 64
    ensures Pow2(64 - k) >= 1
    ensures SignBits(k) == TWO_64 - Pow2(k) == Scale(Pow2(64 - k) - 1, k)
  {
    Pow2Bound(k);
    Pow2Bound(64 - k);
    assert k % 64 == k;
    SmallMod(Pow2(k));
    SmallMod(TWO_64 - Pow2(k));
    assert Scale(Pow2(64 - k) - 1, k) == TWO_64 - Pow2(k) by {
      ScaleSum(Pow2(64 - k) - 1, 1, k);
      ScaleTwice(1, 64 - k, k);
      ScaleValues(1);
    }
  }

  lemma {:induction false} SamePattern(a: int, b: int)
    requires a % TWO_64 == b % TWO_64
    ensures ToI64(a) == ToI64(b)
  {
  }

  lemma {:induction false} OneTurnMore(v: int)
    ensures ToI64(v + TWO_64) == ToI64(v)
  {
    ModTwo64(v, 1);
  }

  lemma {:induction false} NineBytes(s: seq<u8>)
    requires 1 <= |s| <= 9
    ensures ToI64(AccumulateSigned(s)) == ToI64(SignedDigits(s))
  {
    SignedDigitsValue(s);
    AccumulateExact(s);
    if Payload(s[|s| - 1]) >= 64 {
      NegativeNine(s);
    }
  }

  lemma {:induction false} NegativeNine(s: seq<u8>)
    requires 1 <= |s| <= 9 && Payload(s[|s| - 1]) >= 64
    ensures ToI64(AccumulateSigned(s)) == ToI64(SignedDigits(s))
  {
    var k := 7 * |s|;
    SignedDigitsValue(s);
    AccumulateExact(s);
    SignBitsValue(k);
    OrDisjoint(Digits(s), Pow2(64 - k) - 1, k);
    assert AccumulateSigned(s) == SignedDigits(s) + TWO_64;
    OneTurnMore(SignedDigits(s));
  }

  lemma {:induction false} TenSignedBytes(s: seq<u8>)
    requires |s| == 10
    ensures ToI64(AccumulateSigned(s)) == ToI64(SignedDigits(s))
  {
    SignedDigitsValue(s);
    AccumulateTen(s, 63);
    Scale7(1, 63);
    ScaleValues(1);
    TurnsBack(Accumulate(s), Digits(s), SignedDigits(s));
  }

  lemma {:induction false} TurnsBack(a: int, n: int, v: int)
    requires a == n % TWO_64 && (v == n || v == n - 64 * TWO_64)
    ensures ToI64(a) == ToI64(v)
  {
    ModTwo64(n, -64);
    SamePattern(a, v);
  }

  lemma {:induction false} AccumulateSignedValue(s: seq<u8>)
    requires 1 <= |s| <= 10
    ensures ToI64(AccumulateSigned(s)) == ToI64(SignedDigits(s))
  {
    if |s| == 10 {
      TenSignedBytes(s);
    } else {
      NineBytes(s);
    }
  }

  function UlebValue(e: seq<u8>): i64 { ToI64(Accumulate(e)) }

  function SlebValue(e: seq<u8>): i64
    requires e != []
  {
    ToI64(AccumulateSigned(e))
  }

  /** The bytes of the encoding that starts at `pos`. */
  function EncodingAt(s: seq<u8>, pos: nat): (e: Option<seq<u8>>)
    ensures e.Some? ==> e.value != [] && pos + |e.value| <= |s|
  {
    if pos > |s| then None
    else
      match EncodedLength(s[pos..])
      case None => None
      case Some(n) => Some(s[pos..pos + n])
  }

  function ReadUlebAt(s: seq<u8>, pos: nat): (r: Result<(i64, nat)>)
    ensures r.Ok? ==> pos < r.value.1 <= |s|
  {
    match EncodingAt(s, pos)
    case None => Err(OutOfBounds)
    case Some(e) => Ok((UlebValue(e), pos + |e|))
  }

  function ReadSlebAt(s: seq<u8>, pos: nat): (r: Result<(i64, nat)>)
    ensures r.Ok? ==> pos < r.value.1 <= |s|
  {
    match EncodingAt(s, pos)
    case None => Err(OutOfBounds)
    case Some(e) => Ok((SlebValue(e), pos + |e|))
  }

  lemma {:induction false} AccumulateNext(slice: seq<u8>, cursor: nat, pos: nat)
    requires cursor <= pos < |slice|
    ensures Accumulate(slice[cursor..pos + 1])
         == Or(Accumulate(slice[cursor..pos]), ShiftLeft(Payload(slice[pos]), 7 * (pos - cursor)))
  {
    assert slice[cursor..pos + 1][..pos - cursor] == slice[cursor..pos];
  }

  lemma {:induction false} EncodingEndsAt(slice: seq<u8>, cursor: nat, pos: nat)
    requires cursor <= pos < |slice| && !Continues(slice[pos])
    requires forall i :: cursor <= i < pos ==> Continues(slice[i])
    ensures EncodingAt(slice, cursor) == Some(slice[cursor..pos + 1])
  {
  }

  lemma {:induction false} ReadsTo(slice: seq<u8>, cursor: nat, pos: nat)
    requires cursor <= pos < |slice| && !Continues(slice[pos])
    requires forall i :: cursor <= i < pos ==> Continues(slice[i])
    ensures ReadUlebAt(slice, cursor) == Ok((UlebValue(slice[cursor..pos + 1]), pos + 1))
    ensures ReadSlebAt(slice, cursor) == Ok((SlebValue(slice[cursor..pos + 1]), pos + 1))
  {
    EncodingEndsAt(slice, cursor, pos);
  }

  lemma {:induction false} SignOf(e: seq<u8>, value: nat, bit: nat)
    requires e != [] && value == Accumulate(e) && bit == 7 * |e|
    ensures AccumulateSigned(e)
         == if bit < 64 && Payload(e[|e| - 1]) >= 64 then Or(value, SignBits(bit)) else value
  {
  }

  lemma {:induction false} NoEncodingAt(slice: seq<u8>, cursor: nat)
    requires forall i :: cursor <= i < |slice| ==> Continues(slice[i])
    ensures EncodingAt(slice, cursor) == None
  {
  }

  /** read_uleb: on success the value and the moved cursor. */
  method ReadUleb(slice: seq<u8>, cursor: nat) returns (r: Result<i64>, next: nat)
    ensures match ReadUlebAt(slice, cursor)
      case Err(e) => r == Err(e)
      case Ok((v, end)) => r == Ok(v) && next == end
  {
    var pos, value, bit := cursor, 0, 0;
    while pos < |slice|
      invariant cursor <= pos && bit == 7 * (pos - cursor)
      invariant pos > cursor ==> pos <= |slice|
      invariant pos <= |slice| ==> value == Accumulate(slice[cursor..pos])
      invariant forall i :: cursor <= i < pos && i < |slice| ==> Continues(slice[i])
    {
      var byte := slice[pos];
      AccumulateNext(slice, cursor, pos);
      value := Or(value, ShiftLeft(Payload(byte), bit));
      if !Continues(byte) {
        ReadsTo(slice, cursor, pos);
        return Ok(ToI64(value)), pos + 1;
      }
      pos := pos + 1;
      bit := bit + 7;
    }
    NoEncodingAt(slice, cursor);
    return Err(OutOfBounds), pos;
  }

  /** read_sleb: as ReadUleb, then sign-extension from the last byte when fewer than 64 bits were read. */
  method ReadSleb(slice: seq<u8>, cursor: nat) returns (r: Result<i64>, next: nat)
    ensures match ReadSlebAt(slice, cursor)
      case Err(e) => r == Err(e)
      case Ok((v, end)) => r == Ok(v) && next == end
  {
    var pos, value, bit := cursor, 0, 0;
    while pos < |slice|
      invariant cursor <= pos && bit == 7 * (pos - cursor)
      invariant pos > cursor ==> pos <= |slice|
      invariant pos <= |slice| ==> value == Accumulate(slice[cursor..pos])
      invariant forall i :: cursor <= i < pos && i < |slice| ==> Continues(slice[i])
    {
      var byte := slice[pos];
      AccumulateNext(slice, cursor, pos);
      value := Or(value, ShiftLeft(Payload(byte), bit));
      bit := bit + 7;
      if !Continues(byte) {
        ReadsTo(slice, cursor, pos);
        SignOf(slice[cursor..pos + 1], value, bit);
        if bit < 64 && Payload(byte) >= 64 {
          value := Or(value, SignBits(bit));
        }
        return Ok(ToI64(value)), pos + 1;
      }
      pos := pos + 1;
    }
    NoEncodingAt(slice, cursor);
    return Err(OutOfBounds), pos;
  }

  lemma {:induction false} ContinuedUleb(low: nat, t: seq<u8>)
    requires low < 128 && t != [] && EncodedLength(t) == Some(|t|)
    ensures var s := [128 + low] + t;
      Digits(s) == low + 128 * Digits(t) && EncodedLength(s) == Some(|t| + 1)
  {
  }

  lemma {:induction false} ContinuedSleb(low: nat, t: seq<u8>)
    requires low < 128 && t != [] && EncodedLength(t) == Some(|t|)
    ensures var s := [128 + low] + t;
      SignedDigits(s) == low + 128 * SignedDigits(t) && EncodedLength(s) == Some(|t| + 1)
  {
  }

  /** The unsigned encoder of section 7.6. */
  function EncodeUleb(v: nat): (s: seq<u8>)
    ensures s != [] && Digits(s) == v && EncodedLength(s) == Some(|s|)
  {
    if v < 128 then [v]
    else
      var t := EncodeUleb(v / 128);
      ContinuedUleb(v % 128, t);
      [128 + v % 128] + t
  }

  function Distance(v: int): nat { if v < 0 then -v else v + 1 }

  lemma {:induction false} RestIsCloser(v: int)
    requires v < -64 || 64 <= v
    ensures Distance(v / 128) < Distance(v)
  {
  }

  /** The signed encoder of section 7.6. */
  function EncodeSleb(v: int): (s: seq<u8>)
    ensures s != [] && SignedDigits(s) == v && EncodedLength(s) == Some(|s|)
    decreases Distance(v)
  {
    if -64 <= v < 64 then [v % 128]
    else
      RestIsCloser(v);
      var t := EncodeSleb(v / 128);
      ContinuedSleb(v % 128, t);
      [128 + v % 128] + t
  }

  lemma {:induction false} SevenBitsLess(v: int, p: int)
    requires -128 * p <= v < 128 * p
    ensures -p <= v / 128 < p
  {
  }

  /** One digit more is a factor of 128. */
  lemma {:induction false} DigitRoom(k: nat)
    ensures Pow2(k + 7) == 128 * Pow2(k)
  {
    Scale7(1, k);
  }

  /** Values below 2^(7n) take at most n bytes. */
  lemma {:induction false} UlebLength(v: nat, bits: nat, p: nat, n: nat)
    requires n >= 1 && bits == 7 * n && p == Pow2(bits) && v < p
    ensures |EncodeUleb(v)| <= n
    decreases n
  {
    if v >= 128 {
      DigitRoom(bits - 7);
      SevenBitsLess(v, Pow2(bits - 7));
      assert n > 1 by {
        ScaleValues(1);
      }
      UlebLength(v / 128, bits - 7, Pow2(bits - 7), n - 1);
    }
  }

  /** Signed values of 7n bits take at most n bytes. */
  lemma {:induction false} SlebLength(v: int, bits: nat, p: int, n: nat)
    requires n >= 1 && bits == 7 * n - 1 && p == Pow2(bits) && -p <= v < p
    ensures |EncodeSleb(v)| <= n
    decreases n
  {
    if v < -64 || 64 <= v {
      assert n > 1 by {
        ScaleValues(1);
        assert 2 * Pow2(6) == Pow2(7);
      }
      DigitRoom(bits - 7);
      SevenBitsLess(v, Pow2(bits - 7));
      SlebLength(v / 128, bits - 7, Pow2(bits - 7), n - 1);
    }
  }

  lemma {:induction false} LengthWithTail(s: seq<u8>, tail: seq<u8>)
    requires EncodedLength(s) == Some(|s|)
    ensures EncodedLength(s + tail) == Some(|s|)
  {
    EncodedLengthIs(s + tail, |s|);
  }

  lemma {:induction false} FindsEncoding(before: seq<u8>, e: seq<u8>, tail: seq<u8>)
    requires EncodedLength(e) == Some(|e|)
    ensures EncodingAt(before + e + tail, |before|) == Some(e)
  {
    var s := before + e + tail;
    assert s[|before|..] == e + tail;
    LengthWithTail(e, tail);
    assert s[|before|..|before| + |e|] == e;
  }

  lemma {:induction false} UlebInverse(v: nat, e: seq<u8>)
    requires v < TWO_64 && e == EncodeUleb(v)
    ensures EncodedLength(e) == Some(|e|) && UlebValue(e) == ToI64(v)
  {
    Pow2Bound(70);
    UlebLength(v, 70, Pow2(70), 10);
    AccumulateValue(e);
    SmallMod(v);
  }

  lemma {:induction false} SlebInverse(v: i64, e: seq<u8>)
    requires e == EncodeSleb(v)
    ensures EncodedLength(e) == Some(|e|) && SlebValue(e) == v
  {
    Pow2Bound(69);
    SlebLength(v, 69, Pow2(69), 10);
    AccumulateSignedValue(e);
    I64Self(v);
  }

  lemma {:induction false} ReadsUnsigned(before: seq<u8>, e: seq<u8>, tail: seq<u8>, v: i64, at: nat, end: nat)
    requires EncodedLength(e) == Some(|e|) && at == |before| && end == at + |e| && UlebValue(e) == v
    ensures ReadUlebAt(before + e + tail, at) == Ok((v, end))
  {
    FindsEncoding(before, e, tail);
  }

  lemma {:induction false} ReadsSigned(before: seq<u8>, e: seq<u8>, tail: seq<u8>, v: i64, at: nat, end: nat)
    requires EncodedLength(e) == Some(|e|) && at == |before| && end == at + |e| && SlebValue(e) == v
    ensures ReadSlebAt(before + e + tail, at) == Ok((v, end))
  {
    FindsEncoding(before, e, tail);
  }

  /** Reading undoes the encoder for every 64-bit pattern, moves the cursor by its length, and ignores the rest. */
  lemma {:induction false} UlebRoundTrip(before: seq<u8>, v: nat, e: seq<u8>, tail: seq<u8>, at: nat, end: nat)
    requires v < TWO_64 && e == EncodeUleb(v) && at == |before| && end == at + |e|
    ensures ReadUlebAt(before + e + tail, at) == Ok((ToI64(v), end))
    ensures v < TWO_63 ==> ToI64(v) == v
  {
    UlebInverse(v, e);
    ReadsUnsigned(before, e, tail, ToI64(v), at, end);
    if v < TWO_63 {
      SmallMod(v);
    }
  }

  lemma {:induction false} SlebRoundTrip(before: seq<u8>, v: i64, e: seq<u8>, tail: seq<u8>, at: nat, end: nat)
    requires e == EncodeSleb(v) && at == |before| && end == at + |e|
    ensures ReadSlebAt(before + e + tail, at) == Ok((v, end))
  {
    SlebInverse(v, e);
    ReadsSigned(before, e, tail, v, at, end);
  }
}
