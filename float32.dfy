/** The IEEE 754 single-precision (`f32`) arithmetic behind the simulator's scaled counts
    (`(total as f32 * fraction) as usize`, src/app.rs:303-304, 409-410). Only nonnegative finite
    values occur there, and every one of them is an integer divided by a power of two, so a value is
    kept as an integer numerator: rounding it to an `f32` keeps its 24 most significant bits,
    rounding to nearest with ties to even (section 4.3.1 of IEEE 754-2008), and the cast to
    `usize` truncates toward zero. */
module Float32 {
  /** Bits in an `f32` significand, the hidden leading bit included. */
  const SIGNIFICAND_BITS: nat := 24

  function Pow2(k: nat): (p: nat)
    ensures p >= 1
  {
    if k == 0 then 1 else 2 * Pow2(k - 1)
  }

  lemma {:induction false} Pow2Add(a: nat, b: nat)
    ensures Pow2(a + b) == Pow2(a) * Pow2(b)
    decreases a
  {
    if a > 0 {
      Pow2Add(a - 1, b);
      assert Pow2(a + b) == 2 * Pow2(a - 1 + b);
    }
  }

  lemma Pow2Monotone(a: nat, b: nat)
    requires a <= b
    ensures Pow2(a) <= Pow2(b)
  {
    Pow2Add(a, b - a);
  }

  /** The powers of two the scaled counts need, as literals. */
  lemma Pow2Values()
    ensures Pow2(23) == 0x80_0000 && Pow2(24) == 0x100_0000 && Pow2(29) == 0x2000_0000
  {
    assert Pow2(5) == 32;
    Pow2Add(5, 5);
    Pow2Add(10, 10);
    Pow2Add(20, 3);
    Pow2Add(23, 1);
    Pow2Add(24, 5);
  }

  /** The number of binary digits of `n`. */
  function BitLength(n: nat): (l: nat)
    ensures n < Pow2(l)
    ensures n > 0 ==> l >= 1 && Pow2(l - 1) <= n
    decreases n
  {
    if n == 0 then 0 else BitLength(n / 2) + 1
  }

  /** A number below `2^k` has at most `k` digits. */
  lemma {:induction false} BitLengthBelow(n: nat, k: nat)
    requires n < Pow2(k)
    ensures BitLength(n) <= k
    decreases n
  {
    if n > 0 {
      assert k >= 1;
      BitLengthBelow(n / 2, k - 1);
    }
  }

  /** The spacing of the `f32` values next to `n`: 1 while `n` fits the significand, otherwise the
      weight of the lowest of its 24 leading bits. */
  function Ulp(n: nat): (u: nat)
    ensures u >= 1
    ensures n < u * 0x100_0000
    ensures BitLength(n) > SIGNIFICAND_BITS ==> u * 0x80_0000 <= n
  {
    UlpBounds(n);
    if BitLength(n) <= SIGNIFICAND_BITS then 1 else Pow2(BitLength(n) - SIGNIFICAND_BITS)
  }

  lemma UlpBounds(n: nat)
    ensures BitLength(n) <= SIGNIFICAND_BITS ==> n < 0x100_0000
    ensures BitLength(n) > SIGNIFICAND_BITS ==>
      var u := Pow2(BitLength(n) - SIGNIFICAND_BITS);
      n < u * 0x100_0000 && u * 0x80_0000 <= n
  {
    var l := BitLength(n);
    Pow2Values();
    if l <= SIGNIFICAND_BITS {
      Pow2Monotone(l, SIGNIFICAND_BITS);
    } else {
      var e := l - SIGNIFICAND_BITS;
      Pow2Add(e, 24);
      Pow2Add(e, 23);
      assert e + 24 == l && e + 23 == l - 1;
    }
  }

  function Dist(a: nat, b: nat): nat {
    if a <= b then b - a else a - b
  }

  /** `n` rounded to an `f32`: to the nearest multiple of `Ulp(n)`, and on a tie to the one whose
      significand is even. */
  function RoundToF32(n: nat): (r: nat)
    ensures r % Ulp(n) == 0
    ensures 2 * Dist(r, n) <= Ulp(n)
    ensures 2 * Dist(r, n) == Ulp(n) ==> (r / Ulp(n)) % 2 == 0
  {
    var u := Ulp(n);
    var q := n / u;
    var rem := n % u;
    var up := rem > u - rem || (rem == u - rem && q % 2 == 1);
    RoundedMultiple(n, u, q, rem, up);
    if up then (q + 1) * u else q * u
  }

  /** The arithmetic behind `RoundToF32`'s contract. */
  lemma RoundedMultiple(n: nat, u: nat, q: nat, rem: nat, up: bool)
    requires u >= 1 && q == n / u && rem == n % u
    requires up == (rem > u - rem || (rem == u - rem && q % 2 == 1))
    ensures var r := if up then (q + 1) * u else q * u;
      r % u == 0 && 2 * Dist(r, n) <= u && (2 * Dist(r, n) == u ==> (r / u) % 2 == 0)
  {
    DivModUnique(q * u, u, q, 0);
    DivModUnique((q + 1) * u, u, q + 1, 0);
    assert (q + 1) * u == q * u + u;
  }

  lemma MulAtLeast(a: nat, u: nat)
    requires a >= 1
    ensures a * u >= u
  {
  }

  /** Division with remainder has one answer. */
  lemma DivModUnique(x: nat, u: nat, q: nat, r: nat)
    requires u >= 1 && x == q * u + r && r < u
    ensures x / u == q && x % u == r
  {
    var q0, r0 := x / u, x % u;
    assert x == q0 * u + r0;
    if q0 < q {
      MulAtLeast(q - q0, u);
    } else if q < q0 {
      MulAtLeast(q0 - q, u);
    }
  }

  /** A multiple of `Ulp(n)` closer to `n` than half the spacing is the rounded value: rounding
      to `f32` is rounding to nearest. */
  lemma RoundIsNearest(n: nat, m: nat)
    requires m % Ulp(n) == 0
    requires 2 * Dist(m, n) < Ulp(n)
    ensures RoundToF32(n) == m
  {
    var u := Ulp(n);
    var r := RoundToF32(n);
    SameMultiple(r, m, u);
  }

  /** A multiple of `2^k` within `n / 2^25` of `n` is `n` rounded, for `n` below `2^(k + 24)`. */
  lemma RoundToMultiple(n: nat, k: nat, q: nat)
    requires n < Pow2(k + SIGNIFICAND_BITS)
    requires 2 * 0x100_0000 * Dist(q * Pow2(k), n) < n
    ensures RoundToF32(n) == q * Pow2(k)
  {
    var m := q * Pow2(k);
    var u := Ulp(n);
    UlpDividesPow2Multiple(n, k, q);
    assert 2 * Dist(m, n) < u;
    RoundIsNearest(n, m);
  }

  /** Two multiples of `u` less than `u` apart are equal. */
  lemma SameMultiple(a: nat, b: nat, u: nat)
    requires u >= 1 && a % u == 0 && b % u == 0 && Dist(a, b) < u
    ensures a == b
  {
    var i, j := a / u, b / u;
    assert a == i * u && b == j * u;
    if i < j {
      MulAtLeast(j - i, u);
    } else if j < i {
      MulAtLeast(i - j, u);
    }
  }

  /** A value that fits the significand is an `f32` as it stands. */
  lemma RoundExact(n: nat)
    requires n < 0x100_0000
    ensures RoundToF32(n) == n
  {
    Pow2Values();
    BitLengthBelow(n, SIGNIFICAND_BITS);
  }

  /** The rounding error is at most `n / 2^24`, the relative error bound of `f32`. */
  lemma RoundRelativeError(n: nat)
    ensures 0x100_0000 * Dist(RoundToF32(n), n) <= n
  {
    if BitLength(n) <= SIGNIFICAND_BITS {
      UlpBounds(n);
      RoundExact(n);
    }
  }

  /** The spacing is a power of two, `2^e` with `e` zero or `n` at least `2^(e + 23)`. */
  lemma UlpIsPow2(n: nat) returns (e: nat)
    ensures Ulp(n) == Pow2(e)
    ensures e == 0 || Pow2(e + SIGNIFICAND_BITS - 1) <= n
  {
    var l := BitLength(n);
    if l <= SIGNIFICAND_BITS {
      e := 0;
    } else {
      e := l - SIGNIFICAND_BITS;
      assert e + SIGNIFICAND_BITS - 1 == l - 1;
    }
  }

  /** Every multiple of `2^k` is a multiple of the spacing of the values below `2^(k + 24)`. */
  lemma UlpDividesPow2Multiple(n: nat, k: nat, q: nat)
    requires n < Pow2(k + SIGNIFICAND_BITS)
    ensures (q * Pow2(k)) % Ulp(n) == 0
  {
    var e := UlpIsPow2(n);
    if e > k {
      Pow2Monotone(k + SIGNIFICAND_BITS, e + SIGNIFICAND_BITS - 1);
      assert false;
    }
    Pow2MultipleMod(q, k - e, e);
    assert k - e + e == k;
  }

  /** `q * 2^(a + b)` is a multiple of `2^b`. */
  lemma Pow2MultipleMod(q: nat, a: nat, b: nat)
    ensures (q * Pow2(a + b)) % Pow2(b) == 0
  {
    Pow2Add(a, b);
    var c := q * Pow2(a);
    assert q * Pow2(a + b) == c * Pow2(b);
    DivModUnique(c * Pow2(b), Pow2(b), c, 0);
  }

  /** A positive `f32` constant below 1: `significand / 2^scale`. */
  datatype Fraction = Fraction(significand: nat, scale: nat)

  /** `f` is the `f32` a decimal literal `x` in (0, 1) compiles to: a full 24-bit significand
      within half a unit of `x * 2^scale`. */
  predicate StoresLiteral(f: Fraction, x: real) {
    && Pow2(SIGNIFICAND_BITS - 1) <= f.significand < Pow2(SIGNIFICAND_BITS)
    && -0.5 <= f.significand as real - x * Pow2(f.scale) as real <= 0.5
  }

  /** `x * significand` rounded to an `f32`, for an `f32` integer `x`. */
  function F32Product(x: nat, significand: nat): (r: nat)
    ensures 0x100_0000 * Dist(r, x * significand) <= x * significand
  {
    RoundRelativeError(x * significand);
    RoundToF32(x * significand)
  }

  /** `(total as f32 * f) as usize`: the total becomes an `f32`, the product is rounded to an
      `f32`, and the cast drops the fraction. */
  function ScaledCount(total: nat, f: Fraction): nat
  {
    Truncate(F32Product(RoundToF32(total), f.significand), f.scale)
  }

  /** The cast of `n / 2^scale` to an integer: `scale` halvings, each dropping the fraction. */
  function Truncate(n: nat, scale: nat): nat
    decreases scale
  {
    if scale == 0 then n else Truncate(n / 2, scale - 1)
  }

  /** Truncation is the quotient: the largest `r` with `r * 2^scale <= n`. */
  lemma {:induction false} TruncateIsQuotient(n: nat, scale: nat)
    ensures Truncate(n, scale) * Pow2(scale) <= n < (Truncate(n, scale) + 1) * Pow2(scale)
    decreases scale
  {
    if scale > 0 {
      var r := Truncate(n / 2, scale - 1);
      var d := Pow2(scale - 1);
      TruncateIsQuotient(n / 2, scale - 1);
      assert r * d <= n / 2 < r * d + d;
      assert r * Pow2(scale) == 2 * (r * d);
      assert (r + 1) * Pow2(scale) == 2 * (r * d) + 2 * d;
    }
  }
}
