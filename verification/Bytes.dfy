/** Numbers as little-endian bytes. */
module Bytes {
  import opened MachineInt

  /** The number some bytes are on a little-endian machine. */
  function LittleEndian(b: seq<u8>): (v: nat)
    ensures |b| == 1 ==> v < 256
    ensures |b| == 2 ==> v < TWO_16
    ensures |b| == 4 ==> v < TWO_32
    ensures |b| == 8 ==> v < TWO_64
  {
    NumberBound(b);
    Digits(b)
  }

  function Digits(b: seq<u8>): nat {
    if b == [] then 0 else b[0] + 256 * Digits(b[1..])
  }

  function Span(n: nat): nat {
    if n == 0 then 1 else 256 * Span(n - 1)
  }

  lemma {:induction false} DigitsBound(b: seq<u8>)
    ensures Digits(b) < Span(|b|)
  {
    if b != [] {
      DigitsBound(b[1..]);
    }
  }

  lemma {:induction false} NumberBound(b: seq<u8>)
    ensures |b| == 1 ==> Digits(b) < 256
    ensures |b| == 2 ==> Digits(b) < TWO_16
    ensures |b| == 4 ==> Digits(b) < TWO_32
    ensures |b| == 8 ==> Digits(b) < TWO_64
  {
    DigitsBound(b);
    assert Span(1) == 256 && Span(2) == TWO_16 && Span(4) == TWO_32 && Span(8) == TWO_64;
  }

  /** It is what the readers of two, four and eight bytes give. */
  lemma {:induction false} LittleEndianIs(b: seq<u8>)
    ensures |b| == 2 ==> LittleEndian(b) == Le16(b)
    ensures |b| == 4 ==> LittleEndian(b) == Le32(b)
    ensures |b| == 8 ==> LittleEndian(b) == Le64(b)
  {
    if |b| == 8 {
      LittleEndianIs(b[4..]);
      FourDigits(b);
    } else if |b| == 4 {
      FourDigits(b);
      assert Digits(b[4..]) == 0;
    } else if |b| == 2 {
      assert Digits(b[1..]) == b[1] + 256 * Digits(b[1..][1..]);
    }
  }

  lemma {:induction false} FourDigits(b: seq<u8>)
    requires |b| >= 4
    ensures Digits(b) == b[0] as int + 256 * b[1] as int + TWO_16 * b[2] as int + 0x100_0000 * b[3] as int
                         + TWO_32 * Digits(b[4..])
  {
    var (c, d, e) := (b[1..], b[2..], b[3..]);
    assert c[1..] == d && d[1..] == e && e[1..] == b[4..];
    assert Digits(d) == d[0] + 256 * Digits(e);
    assert Digits(e) == e[0] + 256 * Digits(b[4..]);
    assert Digits(c) == c[0] + 256 * Digits(d);
  }

  /** The low digits of a number. */
  function Low(v: nat, n: nat): (b: seq<u8>)
    ensures |b| == n
  {
    if n == 0 then [] else [v % 256] + Low(v / 256, n - 1)
  }

  lemma {:induction false} LowDigits(v: nat, n: nat)
    requires v < Span(n)
    ensures Digits(Low(v, n)) == v
  {
    if n != 0 {
      LowDigits(v / 256, n - 1);
      assert Low(v, n)[1..] == Low(v / 256, n - 1);
    }
  }

  /** The eight bytes of a word, lowest first. */
  ghost function Word(v: u64): (b: seq<u8>)
    ensures |b| == 8 && LittleEndian(b) == v
  {
    HasBytes(v);
    var b: seq<u8> :| |b| == 8 && LittleEndian(b) == v;
    b
  }

  /** The four bytes of half a word. */
  ghost function Half(v: u32): (b: seq<u8>)
    ensures |b| == 4 && LittleEndian(b) == v
  {
    HasBytes(v);
    var b: seq<u8> :| |b| == 4 && LittleEndian(b) == v;
    b
  }

  lemma {:induction false} HasBytes(v: u64)
    ensures exists b: seq<u8> :: |b| == 8 && LittleEndian(b) == v
    ensures v < TWO_32 ==> exists b: seq<u8> :: |b| == 4 && LittleEndian(b) == v
  {
    assert Span(4) == TWO_32 && Span(8) == TWO_64;
    LowDigits(v, 8);
    assert LittleEndian(Low(v, 8)) == v;
    if v < TWO_32 {
      LowDigits(v, 4);
      assert LittleEndian(Low(v, 4)) == v;
    }
  }

  /** Some bytes stand between two positions. */
  predicate Spans(s: seq<u8>, pos: nat, end: nat, b: seq<u8>) {
    pos <= end <= |s| && s[pos..end] == b
  }

  lemma {:induction false} Both(s: seq<u8>, pos: nat, end: nat, a: seq<u8>, b: seq<u8>, mid: nat)
    requires Spans(s, pos, end, a + b) && mid == pos + |a|
    ensures Spans(s, pos, mid, a) && Spans(s, mid, end, b)
  {
    assert s[pos..mid] == s[pos..end][..|a|] == a;
    assert s[mid..end] == s[pos..end][|a|..] == b;
  }
}
