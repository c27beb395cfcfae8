/** Modular exponentiation as OpenSSL's BN_mod_exp, BN_mod_mul and BN_mod_sub compute it. */
module ModExp {
  import opened Congruence

  function Pow(b: nat, e: nat): nat
  {
    if e == 0 then 1 else b * Pow(b, e - 1)
  }

  function ModPow(b: nat, e: nat, m: Modulus): (r: nat)
    ensures r < m
  {
    Pow(b, e) % m
  }

  function ModMul(a: nat, b: nat, m: Modulus): (r: nat)
    ensures r < m
  {
    a * b % m
  }

  function ModSub(a: int, b: int, m: Modulus): (r: nat)
    ensures r < m
  {
    (a - b) % m
  }

  // ----- Powers

  lemma {:induction false} PowAdd(b: nat, e: nat, f: nat)
    ensures Pow(b, e + f) == Pow(b, e) * Pow(b, f)
  {
    if e > 0 {
      PowAdd(b, e - 1, f);
      assert b * (Pow(b, e - 1) * Pow(b, f)) == (b * Pow(b, e - 1)) * Pow(b, f);
    }
  }

  lemma {:induction false} PowMul(b: nat, e: nat, f: nat)
    ensures Pow(Pow(b, e), f) == Pow(b, e * f)
  {
    if f > 0 {
      PowMul(b, e, f - 1);
      PowAdd(b, e, e * (f - 1));
      assert e + e * (f - 1) == e * f;
    }
  }

  lemma {:induction false} PowOne(e: nat)
    ensures Pow(1, e) == 1
  {
    if e > 0 { PowOne(e - 1); }
  }

  lemma {:induction false} PowSame(a: nat, b: nat, e: nat, m: Modulus)
    requires Same(a, b, m)
    ensures Same(Pow(a, e), Pow(b, e), m)
  {
    if e > 0 {
      PowSame(a, b, e - 1, m);
      SameMul(a, b, Pow(a, e - 1), Pow(b, e - 1), m);
    }
  }

  /** `q` is a multiple of the order of `g`. */
  ghost predicate HasOrder(g: nat, q: Modulus, p: Modulus)
  {
    Same(Pow(g, q), 1, p)
  }

  lemma {:induction false} PowReduced(g: nat, q: Modulus, p: Modulus, e: nat)
    requires HasOrder(g, q, p)
    ensures Same(Pow(g, e), Pow(g, e % q), p)
  {
    var d := e / q;
    assert e == q * d + e % q;
    PowAdd(g, q * d, e % q);
    PowMul(g, q, d);
    PowSame(Pow(g, q), 1, d, p);
    PowOne(d);
    SameMul(Pow(g, q * d), 1, Pow(g, e % q), Pow(g, e % q), p);
  }

  /** Exponents count modulo `q`. */
  lemma {:induction false} ExponentsModQ(g: nat, q: Modulus, p: Modulus, e: nat, f: nat)
    requires HasOrder(g, q, p) && Same(e, f, q)
    ensures Same(Pow(g, e), Pow(g, f), p)
  {
    PowReduced(g, q, p, e);
    PowReduced(g, q, p, f);
  }

  /** Powers of `g` have the order of `g`. */
  lemma {:induction false} PowerHasOrder(g: nat, q: Modulus, p: Modulus, e: nat)
    requires HasOrder(g, q, p)
    ensures HasOrder(Pow(g, e), q, p)
  {
    PowMul(g, e, q);
    assert e * q == q * e;
    PowMul(g, q, e);
    PowSame(Pow(g, q), 1, e, p);
    PowOne(e);
  }

  // ----- Numbers known to be a power of `g` modulo `p`

  /** `x` is g^e modulo p. */
  ghost predicate Is(x: nat, g: nat, e: nat, p: Modulus)
  {
    Same(x, Pow(g, e), p)
  }

  lemma IsMul(x: nat, d: nat, y: nat, e: nat, g: nat, p: Modulus)
    requires Is(x, g, d, p) && Is(y, g, e, p)
    ensures Is(ModMul(x, y, p), g, d + e, p)
  {
    PowAdd(g, d, e);
    SameMul(x, Pow(g, d), y, Pow(g, e), p);
    SameMod(x * y, p);
  }

  lemma IsPow(x: nat, d: nat, e: nat, g: nat, p: Modulus)
    requires Is(x, g, d, p)
    ensures Is(ModPow(x, e, p), g, d * e, p)
  {
    PowMul(g, d, e);
    PowSame(x, Pow(g, d), e, p);
    SameMod(Pow(x, e), p);
  }

  lemma IsOrder(x: nat, d: nat, g: nat, q: Modulus, p: Modulus)
    requires Is(x, g, d, p) && HasOrder(g, q, p)
    ensures HasOrder(x, q, p)
  {
    PowerHasOrder(g, q, p, d);
    PowSame(x, Pow(g, d), q, p);
  }

  /** A reduced number is determined by its exponent modulo `q`. */
  lemma IsUnique(x: nat, y: nat, d: nat, e: nat, g: nat, q: Modulus, p: Modulus)
    requires HasOrder(g, q, p) && Same(d, e, q)
    requires Is(x, g, d, p) && Is(y, g, e, p) && x < p && y < p
    ensures x == y
  {
    ExponentsModQ(g, q, p, d, e);
    Small(x, p);
    Small(y, p);
  }
}
