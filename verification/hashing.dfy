/**
  `simpleHash` of `App.tsx`: the 31-multiplier polynomial over the UTF-16
  code units of a string, kept in signed 32-bit range by `Math.imul` and
  `| 0`.
 */
module Hashing {

  const TwoTo31: int := 0x8000_0000
  const TwoTo32: int := 0x1_0000_0000

  predicate IsInt32(x: int) {
    -TwoTo31 <= x < TwoTo31
  }

  /** ECMAScript `ToInt32`: the signed 32-bit value congruent to `x` modulo 2^32. */
  function Wrap32(x: int): (r: int)
    ensures IsInt32(r)
    ensures (r - x) % TwoTo32 == 0
    ensures IsInt32(x) ==> r == x
  {
    (x + TwoTo31) % TwoTo32 - TwoTo31
  }

  /** `Math.imul(a, b)`: the low 32 bits of the product, as a signed value. */
  function Imul(a: int, b: int): (r: int)
    ensures IsInt32(r)
    ensures (r - a * b) % TwoTo32 == 0
  {
    Wrap32(a * b)
  }

  /** Adding a multiple of 2^32 does not change a remainder modulo 2^32. */
  lemma {:induction false} ModShift(z: int, q: int)
    ensures (z + TwoTo32 * q) % TwoTo32 == z % TwoTo32
    decreases if q < 0 then -q else q
  {
    if q > 0 {
      ModShift(z, q - 1);
      assert z + TwoTo32 * q == (z + TwoTo32 * (q - 1)) + TwoTo32;
    } else if q < 0 {
      ModShift(z, q + 1);
      assert z + TwoTo32 * q == (z + TwoTo32 * (q + 1)) - TwoTo32;
    }
  }

  /** Wrapping an intermediate result before adding gives the same 32-bit sum. */
  lemma Wrap32Add(a: int, b: int)
    ensures Wrap32(Wrap32(a) + b) == Wrap32(a + b)
  {
    var q := (a + TwoTo31) / TwoTo32;
    assert Wrap32(a) == a - TwoTo32 * q;
    ModShift(a + b + TwoTo31, -q);
  }

  /** The UTF-16 code units of one character: one unit, or a surrogate pair above U+FFFF. */
  function CodeUnits(ch: char): (r: seq<int>)
    ensures 1 <= |r| <= 2
    ensures forall i :: 0 <= i < |r| ==> 0 <= r[i] < 0x1_0000
    ensures (ch as int) < 0x1_0000 ==> r == [ch as int]
  {
    if (ch as int) < 0x1_0000 then [ch as int]
    else
      var v := ch as int - 0x1_0000;
      [0xD800 + v / 0x400, 0xDC00 + v % 0x400]
  }

  /** The code units `charCodeAt` walks over. */
  function Utf16(s: string): (r: seq<int>)
    ensures forall i :: 0 <= i < |r| ==> 0 <= r[i] < 0x1_0000
  {
    if |s| == 0 then [] else Utf16(s[..|s| - 1]) + CodeUnits(s[|s| - 1])
  }

  /** The hash of a sequence of code units, one source loop step per unit. */
  function HashUnits(units: seq<int>): (h: int)
    ensures IsInt32(h)
  {
    if |units| == 0 then 0
    else Wrap32(Imul(31, HashUnits(units[..|units| - 1])) + units[|units| - 1])
  }

  /** `simpleHash(s)` as a number (its decimal rendering is the stored hash). */
  function SimpleHashOf(s: string): int {
    HashUnits(Utf16(s))
  }

  /**
    The source loop: `h = Math.imul(31, h) + s.charCodeAt(i) | 0` over every
    code unit. The result is a signed 32-bit integer.
   */
  method SimpleHash(s: string) returns (h: int)
    ensures h == SimpleHashOf(s)
    ensures IsInt32(h)
  {
    var units := Utf16(s);
    h := 0;
    var i := 0;
    while i < |units|
      invariant 0 <= i <= |units|
      invariant h == HashUnits(units[..i])
    {
      assert units[..i + 1][..i] == units[..i];
      h := Wrap32(Imul(31, h) + units[i]);
      i := i + 1;
    }
    assert units[..i] == units;
  }

  /** The empty string hashes to 0. */
  lemma HashEmpty()
    ensures SimpleHashOf("") == 0
  {
  }

  /**
    Appending a character below U+10000 extends the hash by one step of the
    polynomial, `31 * h + code`, taken modulo 2^32 into signed range.
   */
  lemma HashAppend(s: string, ch: char)
    requires (ch as int) < 0x1_0000
    ensures SimpleHashOf(s + [ch]) == Wrap32(31 * SimpleHashOf(s) + ch as int)
  {
    var t := s + [ch];
    assert t[..|t| - 1] == s;
    var u := Utf16(t);
    assert u == Utf16(s) + [ch as int];
    assert u[..|u| - 1] == Utf16(s);
    Wrap32Add(31 * SimpleHashOf(s), ch as int);
  }
}
