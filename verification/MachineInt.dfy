/** Fixed-width arithmetic of the source, written out over unbounded integers. */
module MachineInt {

  const TWO_16: int := 0x1_0000
  const TWO_32: int := 0x1_0000_0000
  const TWO_63: int := 0x8000_0000_0000_0000
  const TWO_64: int := 0x1_0000_0000_0000_0000

  type u8 = b: int | 0 <= b < 256
  type u16 = v: int | 0 <= v < TWO_16
  type u32 = v: int | 0 <= v < TWO_32
  type u64 = v: int | 0 <= v < TWO_64
  type i64 = v: int | -TWO_63 <= v < TWO_63

  /** The 64-bit two's-complement pattern of an integer. */
  function ToU64(v: int): u64 { v % TWO_64 }

  /** The signed value whose 64-bit pattern is that of `v`. */
  function ToI64(v: int): i64 {
    var bits := v % TWO_64;
    if bits < TWO_63 then bits else bits - TWO_64
  }

  /** The sum of unsigned 64-bit numbers in a build without overflow checks: it wraps around. */
  function Plus(a: u64, b: u64): u64 {
    if a + b < TWO_64 then a + b else a + b - TWO_64
  }

  /** Their difference, which wraps around as well. */
  function Minus(a: u64, b: u64): u64 {
    if a >= b then a - b else a - b + TWO_64
  }

  /** v * 2^n, by repeated doubling so that proofs stay linear. */
  function Scale(v: nat, n: nat): nat {
    if n == 0 then v else 2 * Scale(v, n - 1)
  }

  function Pow2(n: nat): nat { Scale(1, n) }

  lemma {:induction false} ScaleTwice(v: nat, m: nat, n: nat)
    ensures Scale(Scale(v, m), n) == Scale(v, m + n)
  {
    if n != 0 {
      ScaleTwice(v, m, n - 1);
    }
  }

  lemma {:induction false} ScaleSum(a: nat, b: nat, n: nat)
    ensures Scale(a + b, n) == Scale(a, n) + Scale(b, n)
  {
    if n != 0 {
      ScaleSum(a, b, n - 1);
    }
  }

  lemma {:induction false} ScaleMonotonic(a: nat, b: nat, n: nat)
    requires a <= b
    ensures Scale(a, n) <= Scale(b, n)
  {
    ScaleSum(a, b - a, n);
  }

  lemma {:induction false} Pow2Monotonic(m: nat, n: nat)
    requires m <= n
    ensures 1 <= Pow2(m) <= Pow2(n)
    decreases n
  {
    if m < n {
      Pow2Monotonic(m, n - 1);
    } else if m != 0 {
      Pow2Monotonic(m - 1, n - 1);
    }
  }

  lemma {:induction false} Scale4(v: nat, n: nat)
    ensures Scale(v, n + 4) == 16 * Scale(v, n)
  {
    assert Scale(v, n + 1) == 2 * Scale(v, n);
    assert Scale(v, n + 2) == 2 * Scale(v, n + 1);
    assert Scale(v, n + 3) == 2 * Scale(v, n + 2);
  }

  lemma {:induction false} Scale16(v: nat, n: nat)
    ensures Scale(v, n + 16) == TWO_16 * Scale(v, n)
  {
    Scale4(v, n);
    Scale4(v, n + 4);
    Scale4(v, n + 8);
    Scale4(v, n + 12);
  }

  lemma {:induction false} ScaleValues(v: nat)
    ensures Scale(v, 7) == 128 * v && Scale(v, 63) == TWO_63 * v && Scale(v, 64) == TWO_64 * v
  {
    Scale4(v, 0);
    Scale4(v, 4);
    assert Scale(v, 8) == 2 * Scale(v, 7);
    Scale16(v, 0);
    Scale16(v, 16);
    Scale16(v, 32);
    Scale16(v, 48);
    assert Scale(v, 64) == 2 * Scale(v, 63);
  }

  lemma {:induction false} Pow2Bound(k: nat)
    ensures k <= 63 ==> 1 <= Pow2(k) <= TWO_63
    ensures k <= 64 ==> Pow2(k) <= TWO_64
    ensures k >= 64 ==> Pow2(k) >= TWO_64
    ensures k >= 63 ==> Pow2(k) >= TWO_63
  {
    ScaleValues(1);
    if k <= 63 {
      Pow2Monotonic(k, 63);
    } else {
      Pow2Monotonic(64, k);
    }
  }

  lemma {:induction false} SmallMod(v: nat)
    requires v < TWO_64
    ensures v % TWO_64 == v
  {
  }

  lemma {:induction false} I64Self(v: i64)
    ensures ToI64(v) == v
  {
  }

  lemma {:induction false} SignedPattern(v: u64)
    ensures ToI64(v) == if v < TWO_63 then v else v - TWO_64
  {
    SmallMod(v);
  }

  /** Multiples of the modulus do not change a 64-bit pattern. */
  lemma {:induction false} ModTwo64(v: int, q: int)
    ensures (v + q * TWO_64) % TWO_64 == v % TWO_64
  {
  }

  /** Bitwise inclusive or. */
  function Or(a: nat, b: nat): nat
    decreases a + b
  {
    if a == 0 then b
    else if b == 0 then a
    else (if a % 2 == 1 || b % 2 == 1 then 1 else 0) + 2 * Or(a / 2, b / 2)
  }

  /** Or-ing a value into the bits above another one adds the two. */
  lemma {:induction false} OrDisjoint(a: nat, b: nat, k: nat)
    requires a < Pow2(k)
    ensures Or(a, Scale(b, k)) == a + Scale(b, k)
  {
    if a != 0 && Scale(b, k) != 0 {
      assert k != 0;
      OrDisjoint(a / 2, b, k - 1);
    }
  }

  /** `(v << bit) as u64` in a build without overflow checks: the shift amount is taken modulo 64. */
  function ShiftLeft(v: nat, bit: nat): u64 {
    Scale(v, bit % 64) % TWO_64
  }

  function Le16(b: seq<u8>): u16
    requires |b| == 2
  {
    b[0] as int + 256 * b[1] as int
  }

  function Le32(b: seq<u8>): u32
    requires |b| == 4
  {
    b[0] as int + 256 * b[1] as int + TWO_16 * b[2] as int + 0x100_0000 * b[3] as int
  }

  /** The eight bytes from `at`, as the 64-bit word a little-endian machine reads. */
  function Word64(s: seq<u8>, at: nat): u64
    requires at + 8 <= |s|
  {
    s[at] as int + 256 * s[at + 1] as int + TWO_16 * s[at + 2] as int + 0x100_0000 * s[at + 3] as int
    + TWO_32 * (s[at + 4] as int + 256 * s[at + 5] as int + TWO_16 * s[at + 6] as int + 0x100_0000 * s[at + 7] as int)
  }

  function Le64(b: seq<u8>): u64
    requires |b| == 8
  {
    Word64(b, 0)
  }

  function Bytes16(v: u16): (b: seq<u8>)
    ensures |b| == 2 && Le16(b) == v
  {
    [v % 256, v / 256]
  }

  lemma {:induction false} Bytes32Digits(v: u32)
    ensures var (a, b, c, d) := (v % 256, v / 256 % 256, v / TWO_16 % 256, v / 0x100_0000);
      d < 256 && a + 256 * b + TWO_16 * c + 0x100_0000 * d == v
  {
    var (x, y, z) := (v / 256, v / TWO_16, v / 0x100_0000);
    assert y == x / 256;
    assert z == y / 256;
  }

  function Bytes32(v: u32): (b: seq<u8>)
    ensures |b| == 4 && Le32(b) == v
  {
    Bytes32Digits(v);
    [v % 256, v / 256 % 256, v / TWO_16 % 256, v / 0x100_0000]
  }
}
