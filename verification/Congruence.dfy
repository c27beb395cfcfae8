/** Integers modulo a positive number. */
module Congruence {
  type Modulus = m: int | m > 0 witness 1

  ghost predicate Same(a: int, b: int, m: Modulus)
  {
    a % m == b % m
  }

  lemma SameByMultiple(a: int, b: int, m: Modulus, k: int)
    requires a == b + m * k
    ensures Same(a, b, m)
  {
    var d := a / m - b / m - k;
    assert m * (a / m) + a % m == m * (b / m) + b % m + m * k;
    assert m * d == b % m - a % m by {
      assert m * d == m * (a / m) - m * (b / m) - m * k;
    }
    if d != 0 {
      NotSmall(m, d);
      assert false;
    }
  }

  lemma NotSmall(m: Modulus, d: int)
    requires d != 0
    ensures m * d >= m || m * d + m <= 0
  {
  }

  lemma MultipleOf(a: int, b: int, m: Modulus) returns (k: int)
    requires Same(a, b, m)
    ensures a == b + m * k
  {
    k := a / m - b / m;
    assert m * k == m * (a / m) - m * (b / m);
  }

  lemma SameMod(a: int, m: Modulus)
    ensures Same(a % m, a, m)
  {
    assert a == m * (a / m) + a % m;
    SameByMultiple(a % m, a, m, -(a / m));
  }

  lemma SameMul(a: int, b: int, c: int, d: int, m: Modulus)
    requires Same(a, b, m) && Same(c, d, m)
    ensures Same(a * c, b * d, m)
  {
    var j := MultipleOf(a, b, m);
    var k := MultipleOf(c, d, m);
    Distribute(a, b, c, d, m, j, k);
    SameByMultiple(a * c, b * d, m, b * k + j * d + j * (m * k));
  }

  lemma Distribute(a: int, b: int, c: int, d: int, m: Modulus, j: int, k: int)
    requires a == b + m * j && c == d + m * k
    ensures a * c == b * d + m * (b * k + j * d + j * (m * k))
  {
    assert a * c == b * c + (m * j) * c;
    assert b * c == b * d + b * (m * k);
    assert (m * j) * c == (m * j) * d + (m * j) * (m * k);
    assert b * (m * k) == m * (b * k) && (m * j) * d == m * (j * d) && (m * j) * (m * k) == m * (j * (m * k));
  }

  lemma Small(x: nat, p: Modulus)
    requires x < p
    ensures x % p == x
  {
  }
}
