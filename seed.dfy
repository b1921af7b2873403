/** The string seed hash of app.js (hashCode) and the floating-point
    primitives the model leaves abstract (seeded, haversineMiles). */
module Seed {
  import opened JsNumbers
  import opened JsStrings

  /** A value in [0, 1): what seeded returns, being x - Math.floor(x). */
  type Unit01 = r: real | 0.0 <= r < 1.0 witness 0.0

  /** The primitives computed in floating point, which the model takes as
      given: seeded (a trigonometric mix of its seed), haversineMiles (the
      great-circle distance of two latitude/longitude pairs, in miles) and
      Number::toString, which toFixed uses for magnitudes of 10^21 and more. */
  datatype Numerics = Numerics(
    seeded: int -> Unit01,
    haversineMiles: (real, real, real, real) -> real,
    numberToString: real -> string)

  /** The accumulator of hashCode after the code units u: each step takes
      h to ToInt32(31 * h + unit), starting from 0. */
  function HashState(u: seq<int>): (h: int)
    ensures -TwoTo31 <= h < TwoTo31
  {
    if u == [] then 0 else ToInt32(31 * HashState(u[..|u| - 1]) + u[|u| - 1])
  }

  /** hashCode(text): Math.abs of the final accumulator over text's UTF-16
      code units. */
  function HashCodeOf(text: string): (r: int)
    ensures 0 <= r <= TwoTo31
  {
    Abs(HashState(Utf16(text)))
  }

  /** One step of the source's loop body, `(hash << 5) - hash + code` followed
      by `hash |= 0`: the shift first wraps 32 * hash to 32 bits, which does
      not change the result modulo 2^32. */
  lemma ShiftStep(h: int, c: int)
    ensures ToInt32(ToInt32(32 * h) - h + c) == ToInt32(31 * h + c)
  {
    var k := if (32 * h) % TwoTo32 >= TwoTo31 then -((32 * h) / TwoTo32) - 1 else -((32 * h) / TwoTo32);
    assert ToInt32(32 * h) == 32 * h + k * TwoTo32;
    assert ToInt32(32 * h) - h + c == (31 * h + c) + k * TwoTo32;
    ToInt32Periodic(31 * h + c, k);
  }

  /** hashCode as the source writes it: a counted loop over the code units,
      shifting and wrapping the accumulator at each step. */
  method HashCode(text: string) returns (r: int)
    ensures r == HashCodeOf(text)
    ensures 0 <= r <= TwoTo31
  {
    var units := Utf16(text);
    var hash := 0;
    var i := 0;
    while i < |units|
      invariant 0 <= i <= |units|
      invariant hash == HashState(units[..i])
    {
      var shifted := ToInt32(32 * hash);
      ShiftStep(hash, units[i]);
      hash := ToInt32(shifted - hash + units[i]);
      assert units[..i + 1][..i] == units[..i];
      i := i + 1;
    }
    assert units[..i] == units;
    r := Abs(hash);
  }

  /** The empty string hashes to 0. */
  lemma HashOfEmpty()
    ensures HashCodeOf("") == 0
  {
  }

  /** The hash of a two-character ASCII string is 31 * first + second, so the
      hash tells "ab" from "ba". */
  lemma HashOfTwoCharacters(a: char, b: char)
    requires a as int < 0x80 && b as int < 0x80
    ensures HashCodeOf([a, b]) == 31 * (a as int) + b as int
  {
    Utf16OfPair(a, b);
    HashStateOfPair(a as int, b as int);
    ToInt32OfInt32(31 * (a as int) + b as int);
  }

  lemma Utf16OfPair(a: char, b: char)
    requires a as int < 0x1_0000 && b as int < 0x1_0000
    ensures Utf16([a, b]) == [a as int, b as int]
  {
    assert [a, b][..1] == [a];
    assert [a][..0] == [];
    assert Utf16([a]) == [a as int];
  }

  lemma HashStateOfPair(x: int, y: int)
    requires 0 <= x < 0x80 && 0 <= y < 0x80
    ensures HashState([x, y]) == ToInt32(31 * x + y)
  {
    assert [x, y][..1] == [x];
    assert [x][..0] == [];
    ToInt32OfInt32(x);
    assert HashState([x]) == x;
  }

  lemma HashIsOrderSensitive()
    ensures HashCodeOf("ab") != HashCodeOf("ba")
  {
    HashOfTwoCharacters('a', 'b');
    HashOfTwoCharacters('b', 'a');
  }

  /** The hash of a single ASCII character is its code: 31 * 0 + code. */
  lemma HashOfOneCharacter(c: char)
    requires c as int < 0x80
    ensures HashCodeOf([c]) == c as int
  {
    assert Utf16([c]) == [c as int] by {
      assert [c][..0] == [];
    }
    assert HashState([c as int]) == ToInt32(c as int) by {
      assert [c as int][..0] == [];
    }
  }
}
