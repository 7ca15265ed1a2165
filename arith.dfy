/** Integer arithmetic on variable operands, defined by recursion. This module has no counterpart
    in the simulator's own code: it is a proof aid. The engine computes a grid area, a remainder
    and a quotient whose operands are both variables; stating these as recursive functions, each
    proved equal to the built-in operator, keeps the rest of the proofs within linear arithmetic. */
module Arith {
  /** The number of clusters in a `width` by `height` grid, accumulated one row at a time. */
  function Area(width: nat, height: nat): nat
    decreases height
  {
    if height == 0 then 0 else Area(width, height - 1) + width
  }

  /** The area is the product of the sides, and it is positive exactly when both sides are. */
  lemma {:induction false} AreaIsProduct(width: nat, height: nat)
    ensures Area(width, height) == width * height
    ensures Area(width, height) > 0 <==> width > 0 && height > 0
    decreases height
  {
    if height > 0 {
      AreaIsProduct(width, height - 1);
    }
  }

  /** `a % b` for a positive `b`, by repeated subtraction. */
  function Remainder(a: nat, b: nat): (r: nat)
    requires b > 0
    ensures r < b
    decreases a
  {
    if a < b then a else Remainder(a - b, b)
  }

  /** `a / b` for a positive `b`, by repeated subtraction. */
  function Quotient(a: nat, b: nat): nat
    requires b > 0
    decreases a
  {
    if a < b then 0 else Quotient(a - b, b) + 1
  }

  /** Quotient and remainder are Rust's `/` and `%` on unsigned integers: the unique pair with
      `a == q * b + r` and `r < b`. */
  lemma {:induction false} DivisionAgrees(a: nat, b: nat)
    requires b > 0
    ensures a == Quotient(a, b) * b + Remainder(a, b) && Remainder(a, b) < b
    decreases a
  {
    if a >= b {
      DivisionAgrees(a - b, b);
    }
  }
}
