/**
  The engine's string hash (`hashCode` in fluidSimulation.ts): the Java
  `String.hashCode` recurrence `h = 31 * h + c` over UTF-16 code units,
  with JavaScript's `(h << 5) - h + c` and `h |= 0` reducing every step to
  a signed 32-bit value.
 */
module Hashing {
  import opened Common

  /** A UTF-16 code unit, the value `charCodeAt` returns. */
  type CodeUnit = c: int | 0 <= c < 0x1_0000

  /** The UTF-16 encoding of one Unicode scalar value: one code unit inside
      the Basic Multilingual Plane, a surrogate pair outside it. */
  function CodeUnits(c: char): (u: seq<CodeUnit>)
    ensures |u| == (if (c as int) < 0x1_0000 then 1 else 2)
    ensures |u| == 1 ==> u[0] == c as int
    ensures |u| == 2 ==> 0xD800 <= u[0] < 0xDC00 <= u[1] < 0xE000
  {
    if (c as int) < 0x1_0000 then [c as int]
    else
      var v := c as int - 0x1_0000;
      [0xD800 + v / 0x400, 0xDC00 + v % 0x400]
  }

  /** The code units of a string, i.e. what `s.length` counts and
      `s.charCodeAt(i)` reads. */
  function Utf16(s: string): (u: seq<CodeUnit>)
    ensures |s| <= |u| <= 2 * |s|
  {
    if |s| == 0 then [] else Utf16(s[..|s| - 1]) + CodeUnits(s[|s| - 1])
  }

  /** One iteration of the hashing loop: `hash = (hash << 5) - hash + c`
      followed by `hash |= 0`. */
  function HashStep(h: int, c: CodeUnit): (r: int)
    ensures IsInt32(r)
  {
    ToInt32(ShiftLeft(h, 5) - h + c)
  }

  /** The loop of `hashCode` run over a sequence of code units, starting
      from `hash = 0`. */
  function HashUnits(u: seq<CodeUnit>): int
  {
    if |u| == 0 then 0 else HashStep(HashUnits(u[..|u| - 1]), u[|u| - 1])
  }

  /** `hashCode(s)`: 0 for the empty string, otherwise the loop above. */
  function HashCode(s: string): (r: int)
    ensures IsInt32(r)
    ensures s == "" ==> r == 0
  {
    var u := Utf16(s);
    if |u| == 0 then 0
    else HashUnits(u)
  }

  /** The reference definition: the Java string hash over unbounded
      integers, sum of `u[i] * 31^(n-1-i)`. */
  function JavaHash(u: seq<CodeUnit>): int
  {
    if |u| == 0 then 0 else 31 * JavaHash(u[..|u| - 1]) + u[|u| - 1]
  }

  /** The shift-and-subtract step is multiplication by 31 modulo 2^32. */
  lemma {:induction false} HashStepIsTimes31(h: int, c: CodeUnit)
    requires IsInt32(h)
    ensures HashStep(h, c) == ToInt32(31 * h + c)
  {
    ToInt32Identity(h);
    var sh := ShiftLeft(h, 5);
    assert Pow2(5) == 32;
    assert Congruent32(sh, h * 32);
    CongruentAffine(sh, h * 32, 1, c - h);
    assert 1 * (h * 32) + (c - h) == 31 * h + c;
    ToInt32Congruent(sh - h + c, 31 * h + c);
  }

  /** The 32-bit loop computes the Java hash reduced to a signed 32-bit
      value: the wrap-around at every step never changes the result
      modulo 2^32. */
  lemma {:induction false} HashUnitsIsJavaHash(u: seq<CodeUnit>)
    ensures HashUnits(u) == ToInt32(JavaHash(u))
  {
    if |u| == 0 {
      ToInt32Identity(0);
    } else {
      var p := u[..|u| - 1];
      var c := u[|u| - 1];
      HashUnitsIsJavaHash(p);
      var h := HashUnits(p);
      assert IsInt32(h) by {
        if |p| > 0 {
          assert h == HashStep(HashUnits(p[..|p| - 1]), p[|p| - 1]);
        }
      }
      HashStepIsTimes31(h, c);
      assert Congruent32(h, JavaHash(p));
      CongruentAffine(h, JavaHash(p), 31, c);
      ToInt32Congruent(31 * h + c, 31 * JavaHash(p) + c);
    }
  }

  /** `hashCode` of any string is its Java hash reduced to 32 bits, and
      therefore always in [-2^31, 2^31). */
  lemma HashCodeIsJavaHash(s: string)
    ensures HashCode(s) == ToInt32(JavaHash(Utf16(s)))
  {
    var u := Utf16(s);
    if |u| == 0 {
      ToInt32Identity(0);
    } else {
      HashUnitsIsJavaHash(u);
    }
  }

  /** Concrete values: the hash of "a" is its code (97) and that of "ab"
      is 31 * 97 + 98. */
  lemma HashCodeExamples()
    ensures HashCode("a") == 97
    ensures HashCode("ab") == 3105
  {
    assert Utf16("a") == [97];
    assert "ab"[..1] == "a";
    assert Utf16("ab") == [97, 98];
    HashUnitsIsJavaHash([97]);
    HashUnitsIsJavaHash([97, 98]);
    assert [97, 98][..1] == [97];
    ToInt32Identity(97);
    ToInt32Identity(3105);
  }
}
