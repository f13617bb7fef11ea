/**
  Shared vocabulary of the fluid-engine model: an optional value, the
  JavaScript number operations the engine relies on (ToInt32, `<<`, `>>`,
  `Math.round`), and small real-valued helpers.
 */
module Common {

  /** A value that may be absent: `null`/`undefined` in the engine, or NaN
      for a failed `parseInt`. */
  datatype Option<+T> = None | Some(value: T)

  const TwoTo31: int := 0x8000_0000
  const TwoTo32: int := 0x1_0000_0000

  /** True when `x` is a signed 32-bit integer. */
  predicate IsInt32(x: int) {
    -TwoTo31 <= x < TwoTo31
  }

  /** True when `a` and `b` agree modulo 2^32. */
  predicate Congruent32(a: int, b: int) {
    (a - b) % TwoTo32 == 0
  }

  /** JavaScript's ToInt32 (the conversion behind `| 0`, `<<` and `>>`):
      the unique signed 32-bit integer congruent to `x` modulo 2^32. */
  function ToInt32(x: int): (r: int)
    ensures IsInt32(r)
    ensures Congruent32(r, x)
  {
    var s := x + TwoTo31;
    DivModSplit(s, TwoTo32);
    s % TwoTo32 - TwoTo31
  }

  /** `n == d * (n / d) + n % d`, with the quotient exposed for reuse. */
  lemma DivModSplit(n: int, d: int)
    requires d > 0
    ensures n == d * (n / d) + n % d
    ensures 0 <= n % d < d
    ensures ((n % d) - n) % d == 0
  {
    var q := n / d;
    assert (n % d) - n == d * (-q);
    MultipleMod(-q, d);
  }

  /** A multiple of `d` leaves remainder zero. */
  lemma MultipleMod(k: int, d: int)
    requires d > 0
    ensures (d * k) % d == 0
  {
    ModUnique(d * k, d, k, 0);
  }

  /** Euclidean division is unique: a quotient/remainder pair with the
      remainder in range is the one `/` and `%` return. */
  lemma ModUnique(n: int, d: int, q: int, r: int)
    requires d > 0
    requires 0 <= r < d
    requires n == d * q + r
    ensures n / d == q
    ensures n % d == r
  {
    var q0 := n / d;
    var r0 := n % d;
    var e := q0 - q;
    assert d * e == r - r0 by {
      assert d * q0 + r0 == d * q + r;
      assert d * q0 - d * q == d * e;
    }
    if e >= 1 {
      MulAtLeast(d, e);
    } else if e <= -1 {
      MulAtLeast(d, -e);
    }
  }

  lemma MulAtLeast(d: int, e: int)
    requires d > 0 && e >= 1
    ensures d * e >= d
  {
    assert d * e == d + d * (e - 1);
  }

  /** Values congruent modulo 2^32 have the same ToInt32. */
  lemma {:induction false} ToInt32Congruent(a: int, b: int)
    requires Congruent32(a, b)
    ensures ToInt32(a) == ToInt32(b)
  {
    var k := (a - b) / TwoTo32;
    DivModSplit(a - b, TwoTo32);
    assert a == b + TwoTo32 * k;
    var sb := b + TwoTo31;
    DivModSplit(sb, TwoTo32);
    ModUnique(a + TwoTo31, TwoTo32, sb / TwoTo32 + k, sb % TwoTo32);
  }

  /** Congruence modulo 2^32 is preserved by `31 * _ + c`. */
  lemma {:induction false} CongruentAffine(a: int, b: int, m: int, c: int)
    requires Congruent32(a, b)
    ensures Congruent32(m * a + c, m * b + c)
  {
    var k := (a - b) / TwoTo32;
    DivModSplit(a - b, TwoTo32);
    assert (m * a + c) - (m * b + c) == m * (a - b);
    assert m * (a - b) == TwoTo32 * (m * k);
    MultipleMod(m * k, TwoTo32);
  }

  /** Congruence modulo 2^32 is symmetric and transitive. */
  lemma {:induction false} CongruentTrans(a: int, b: int, c: int)
    requires Congruent32(a, b) && Congruent32(b, c)
    ensures Congruent32(a, c)
  {
    var k1 := (a - b) / TwoTo32;
    var k2 := (b - c) / TwoTo32;
    DivModSplit(a - b, TwoTo32);
    DivModSplit(b - c, TwoTo32);
    assert a - c == TwoTo32 * (k1 + k2);
    MultipleMod(k1 + k2, TwoTo32);
  }

  /** 2 to the power `n`. */
  function Pow2(n: nat): (r: nat)
    ensures r >= 1
  {
    if n == 0 then 1 else 2 * Pow2(n - 1)
  }

  /** Powers of two add exponents. */
  lemma {:induction false} Pow2Add(a: nat, b: nat)
    ensures Pow2(a + b) == Pow2(a) * Pow2(b)
    decreases a
  {
    if a > 0 {
      Pow2Add(a - 1, b);
      assert Pow2(a + b) == 2 * Pow2(a - 1 + b);
    }
  }

  lemma Pow2Values()
    ensures Pow2(1) == 2 && Pow2(2) == 4 && Pow2(3) == 8 && Pow2(4) == 16
    ensures Pow2(8) == 256 && Pow2(16) == 0x1_0000 && Pow2(31) == TwoTo31
  {
    assert Pow2(1) == 2;
    assert Pow2(2) == 4;
    assert Pow2(3) == 8;
    assert Pow2(4) == 16;
    Pow2Add(4, 4);
    Pow2Add(8, 8);
    Pow2Add(16, 8);
    Pow2Add(24, 4);
    Pow2Add(28, 3);
  }

  /** JavaScript `x << n`: both operands go through ToInt32/ToUint32 and only
      the low five bits of the shift count are used. */
  function ShiftLeft(x: int, n: nat): (r: int)
    ensures IsInt32(r)
    ensures Congruent32(r, ToInt32(x) * Pow2(n % 32))
  {
    ToInt32(ToInt32(x) * Pow2(n % 32))
  }

  /** JavaScript `x >> n`: an arithmetic (sign-propagating) shift of the
      32-bit value, i.e. floor division by 2^(n mod 32). Dafny's `/` with a
      positive divisor already rounds toward negative infinity. */
  function ShiftRight(x: int, n: nat): (r: int)
    ensures IsInt32(r)
    ensures 0 <= x < TwoTo31 ==> 0 <= r <= x
  {
    var v := ToInt32(x);
    if 0 <= x < TwoTo31 then
      assert v == x by { ToInt32Identity(x); }
      DivBounds(x, Pow2(n % 32));
      v / Pow2(n % 32)
    else
      DivInt32(v, Pow2(n % 32));
      v / Pow2(n % 32)
  }

  /** ToInt32 leaves a 32-bit value alone. */
  lemma ToInt32Identity(x: int)
    requires IsInt32(x)
    ensures ToInt32(x) == x
  {
    ModUnique(x + TwoTo31, TwoTo32, 0, x + TwoTo31);
  }

  lemma DivBounds(x: nat, d: int)
    requires d >= 1
    ensures 0 <= x / d <= x
  {
    DivModSplit(x, d);
    var q := x / d;
    if q >= 1 {
      MulAtLeast(q, d);
      assert d * q == q * d;
    }
  }

  lemma DivInt32(v: int, d: int)
    requires IsInt32(v) && d >= 1
    ensures IsInt32(v / d)
  {
    DivModSplit(v, d);
    var q := v / d;
    if q >= 1 {
      MulAtLeast(q, d);
      assert d * q == q * d;
    } else if q <= -1 {
      MulAtLeast(-q, d);
      assert d * q == -((-q) * d);
    }
  }

  /** JavaScript `Math.round`: the nearest integer, halves rounded up. */
  function Round(x: real): (r: int)
    ensures r as real - 0.5 <= x < r as real + 0.5
  {
    (x + 0.5).Floor
  }

  /** `Math.round` is monotone. */
  lemma RoundMonotone(x: real, y: real)
    requires x <= y
    ensures Round(x) <= Round(y)
  {
  }

  lemma MulNonneg(x: real, y: real)
    requires x >= 0.0 && y >= 0.0
    ensures x * y >= 0.0
  {
  }

  function Abs(x: real): (r: real)
    ensures r >= 0.0
    ensures r == x || r == -x
  {
    if x < 0.0 then -x else x
  }

  /** GLSL `min(max(x, lo), hi)` for `lo <= hi`. */
  function Clamp(x: real, lo: real, hi: real): (r: real)
    requires lo <= hi
    ensures lo <= r <= hi
    ensures lo <= x <= hi ==> r == x
  {
    if x < lo then lo else if x > hi then hi else x
  }
}
