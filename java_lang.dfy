/**
 * The parts of Java's value semantics the catalog depends on: 32-bit `int`
 * arithmetic with two's-complement wrap-around, the range of `long`, and
 * `String.isBlank`.
 */
module JavaLang {

  const MinInt32: int := -0x8000_0000
  const MaxInt32: int := 0x7FFF_FFFF
  const MinInt64: int := -0x8000_0000_0000_0000
  const MaxInt64: int := 0x7FFF_FFFF_FFFF_FFFF

  /** Number of distinct 32-bit values. */
  const Modulus32: int := 0x1_0000_0000

  /** Values of Java's `int` / `Integer`. */
  type Int32 = x: int | MinInt32 <= x <= MaxInt32

  /** Values of Java's `long` / `Long`. */
  type Int64 = x: int | MinInt64 <= x <= MaxInt64

  /**
   * The `int` that Java's `+` and `-` produce for the mathematical result `x`:
   * the unique 32-bit value congruent to `x` modulo 2^32.
   */
  function Wrap32(x: int): (r: Int32)
    ensures (x - r) % Modulus32 == 0
    ensures MinInt32 <= x <= MaxInt32 ==> r == x
  {
    (x - MinInt32) % Modulus32 + MinInt32
  }

  /** Shifting the argument by whole multiples of 2^32 does not change the wrapped value. */
  lemma WrapShift(x: int, k: int)
    ensures Wrap32(x + k * Modulus32) == Wrap32(x)
  {
    var a := x - MinInt32;
    assert (a + k * Modulus32) % Modulus32 == a % Modulus32;
  }

  /**
   * Adding `q` back after subtracting it restores any 32-bit value,
   * even when the subtraction wrapped around.
   */
  lemma WrapSubAdd(s: Int32, q: int)
    ensures Wrap32(Wrap32(s - q) + q) == s
  {
    var d := s - q;
    var k := (d - MinInt32) / Modulus32;
    assert Wrap32(d) == d - k * Modulus32;
    WrapShift(s, -k);
  }

  /** Java's `Character.isWhitespace` on a code point. */
  predicate IsWhitespace(c: char)
  {
    var n := c as int;
    || 0x09 <= n <= 0x0D
    || 0x1C <= n <= 0x20
    || n == 0x1680
    || (0x2000 <= n <= 0x200A && n != 0x2007)
    || n == 0x2028 || n == 0x2029
    || n == 0x205F || n == 0x3000
  }

  /** Java's `String.isBlank`: empty or made only of white space. */
  predicate IsBlank(s: string)
  {
    forall i :: 0 <= i < |s| ==> IsWhitespace(s[i])
  }
}
