/** Nonlinear facts, one product at a time. */
module Arith {

  lemma {:induction false} MulMonotone(n: nat, a: int, b: int)
    requires a <= b
    ensures n * a <= n * b
  {
  }

  lemma {:induction false} Distribute(a: int, b: int, c: int)
    ensures a * (b + c) == a * b + a * c
  {
  }

  lemma {:induction false} CancelLeft(k: nat, a: int, b: int)
    requires k > 0 && k * a < k * (b + 1)
    ensures a <= b
  {
  }

  lemma {:induction false} DivBounds(x: nat, y: nat)
    requires y > 0
    ensures y * (x / y) <= x < y * (x / y) + y
  {
  }

  lemma {:induction false} DivUnique(x: nat, y: nat, q: nat)
    requires y > 0 && y * q <= x < y * q + y
    ensures x / y == q && x % y == x - y * q
  {
    DivBounds(x, y);
    Distribute(y, q, 1);
    Distribute(y, x / y, 1);
    CancelLeft(y, q, x / y);
    CancelLeft(y, x / y, q);
  }
}
