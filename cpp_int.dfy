/**
 C++ fixed-width integer semantics used by the admission controller:
 `std::uint64_t` tick arithmetic (wrapping subtraction and multiplication),
 `static_cast<std::uint64_t>` of a signed `int`, and `int` division by two,
 which truncates toward zero.
 */
module CppInt {

  const TWO_64: int := 0x1_0000_0000_0000_0000

  /** `std::uint64_t` */
  type u64 = x: int | 0 <= x < 0x1_0000_0000_0000_0000

  /** `std::int64_t` */
  type i64 = x: int | -0x8000_0000_0000_0000 <= x < 0x8000_0000_0000_0000

  /** `int` (32 bits on the platforms the plugin targets) */
  type i32 = x: int | -0x8000_0000 <= x < 0x8000_0000

  /** Unsigned 64-bit `a - b`: the one u64 that added to `b` gives `a` modulo 2^64. */
  function SubU64(a: u64, b: u64): (r: u64)
    ensures (b + r) % TWO_64 == a
    ensures b <= a ==> r == a - b
    ensures a < b ==> r > a
  {
    if b <= a then a - b else a - b + TWO_64
  }

  /** `static_cast<std::uint64_t>(x)` for a signed 32-bit `x`: same value modulo 2^64. */
  function CastU64(x: i32): (r: u64)
    ensures (r - x) % TWO_64 == 0
    ensures 0 <= x ==> r == x
    ensures x < 0 ==> r >= TWO_64 - 0x8000_0000
  {
    if 0 <= x then x else x + TWO_64
  }

  /** Unsigned 64-bit `a * b`, wrapping modulo 2^64. */
  function MulU64(a: u64, b: u64): (r: u64)
    ensures (r - a * b) % TWO_64 == 0
    ensures a * b < TWO_64 ==> r == a * b
  {
    var p := a * b;
    WrapCongruent(p);
    if p < TWO_64 then p else p % TWO_64
  }

  /** Reducing modulo 2^64 changes a value by a multiple of 2^64. */
  lemma WrapCongruent(p: int)
    ensures (p % TWO_64 - p) % TWO_64 == 0
  {
    var q := p / TWO_64;
    assert p % TWO_64 - p == -q * TWO_64;
  }

  /** C++ `x / 2` on `int`: rounds toward zero, unlike Dafny's Euclidean division. */
  function HalfTowardZero(x: i32): (r: i32)
    ensures 0 <= x ==> 0 <= r && x - 1 <= 2 * r <= x
    ensures x < 0 ==> r <= 0 && x <= 2 * r <= x + 1
  {
    var m: int := x;
    if 0 <= m then m / 2 else -((-m) / 2)
  }
}
