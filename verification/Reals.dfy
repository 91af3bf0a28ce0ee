// A few facts about products of reals, each small enough for the solver.
module Reals {

  lemma {:induction false} MulPositive(x: real, y: real)
    requires x > 0.0 && y > 0.0
    ensures x * y > 0.0
  {
  }

  lemma {:induction false} MulNonNegative(x: real, y: real)
    requires x >= 0.0 && y >= 0.0
    ensures x * y >= 0.0
  {
  }

  lemma {:induction false} MulMonotone(x: real, x': real, y: real, y': real)
    requires 0.0 <= x <= x' && 0.0 <= y <= y'
    ensures x * y <= x' * y'
  {
    MulNonNegative(x' - x, y);
    MulNonNegative(x', y' - y);
    assert x' * y' - x * y == (x' - x) * y + x' * (y' - y);
  }

  lemma {:induction false} MulStrict(n: real, x: real, y: real)
    requires n > 0.0
    ensures n * x <= n * y <==> x <= y
    ensures n * x == n * y <==> x == y
  {
    if x < y { MulPositive(n, y - x); }
    if y < x { MulPositive(n, x - y); }
  }

  lemma {:induction false} ProductZero(x: real, y: real)
    requires x * y == 0.0
    ensures x == 0.0 || y == 0.0
  {
    if x > 0.0 { MulStrict(x, y, 0.0); }
    if x < 0.0 { MulStrict(-x, y, 0.0); }
  }
}
