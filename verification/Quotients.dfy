/** Facts about quotients by a divisor that is not a constant. */
module Quotients {

  lemma Division(a: nat, b: nat)
    requires b > 0
    ensures a / b >= 0 && a / b * b + a % b == a
  {
  }

  lemma MultipleAtLeast(x: int, b: int)
    requires x >= 1 && b >= 0
    ensures x * b >= b
  {
  }

  lemma SmallMultiple(x: int, b: int)
    requires -b < x * b < b
    ensures x == 0
  {
    if x >= 1 {
      MultipleAtLeast(x, b);
    } else if x <= -1 {
      MultipleAtLeast(-x, b);
    }
  }

  /** Quotient and remainder are unique. */
  lemma Quotient(q: nat, b: nat, r: nat)
    requires r < b
    ensures (q * b + r) / b == q && (q * b + r) % b == r
  {
    var a := q * b + r;
    var c, m := a / b, a % b;
    Division(a, b);
    assert (q - c) * b == q * b - c * b == m - r;
    SmallMultiple(q - c, b);
  }
}
