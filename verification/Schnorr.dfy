/** ssh/schnorr.c: proofs of knowledge of an exponent.  The hash function is a parameter. */
module Schnorr {
  import opened Wire
  import opened Congruence
  import opened ModExp

  type Digest = Bytes -> Bytes

  /** A modp_group. */
  datatype Group = Group(p: Modulus, q: Modulus, g: nat)

  // ----- The hash

  /** The puts of schnorr_hash succeed. */
  predicate Hashable(grp: Group, gv: nat, gx: nat, id: Bytes)
  {
    && CanPutBignum(grp.g) && CanPutBignum(grp.p) && CanPutBignum(grp.q) && CanPutBignum(gv) && CanPutBignum(gx)
    && StringFits(id) && |HashInput(grp, gv, gx, id)| <= SSHBUF_SIZE_MAX
  }

  function HashInput(grp: Group, gv: nat, gx: nat, id: Bytes): Bytes
    requires CanPutBignum(grp.g) && CanPutBignum(grp.p) && CanPutBignum(grp.q) && CanPutBignum(gv) && CanPutBignum(gx)
    requires StringFits(id)
  {
    BignumBytes(grp.g) + BignumBytes(grp.p) + BignumBytes(grp.q) + BignumBytes(gv) + BignumBytes(gx) + StringBytes(id)
  }

  /** schnorr_hash; a failing put is fatal. */
  function Hash(h: Digest, grp: Group, gv: nat, gx: nat, id: Bytes): Option<nat>
  {
    if Hashable(grp, gv, gx, id) then Some(FromBigEndian(h(HashInput(grp, gv, gx, id)))) else None
  }

  // ----- Signing and verifying

  /** schnorr_sign_buf with the random exponent `v`; None is its failure or a fatal error. */
  function Sign(h: Digest, grp: Group, x: nat, gx: nat, id: Bytes, v: nat): (sig: Option<Bytes>)
  {
    if gx <= 1 || gx >= grp.p then None
    else
      var gv := ModPow(grp.g, v, grp.p);
      var c :- Hash(h, grp, gv, gx, id);
      var r := ModSub(v, ModMul(x, c, grp.q), grp.q);
      if CanPutBignum(r) then Some(BignumBytes(gv) + BignumBytes(r)) else None
  }

  /** schnorr_verify_buf: the proof (e, r) is accepted. */
  predicate Verify(h: Digest, grp: Group, gx: nat, id: Bytes, sig: Bytes): (ok: bool)
    ensures ok ==> 1 < gx < grp.p && ModPow(gx, grp.q, grp.p) == 1
  {
    var e := GetBignum(sig);
    e.Ok? &&
    var r := GetBignum(e.value.rest);
    r.Ok? && r.value.rest == [] && VerifyPair(h, grp, gx, id, r.value.value, e.value.value)
  }

  /** schnorr_verify. */
  predicate VerifyPair(h: Digest, grp: Group, gx: nat, id: Bytes, r: nat, e: nat)
  {
    1 < gx < grp.p && ModPow(gx, grp.q, grp.p) == 1 &&
    var c := Hash(h, grp, e, gx, id);
    c.Some? && e == ModMul(ModPow(grp.g, r, grp.p), ModPow(gx, c.value, grp.p), grp.p)
  }

  // ----- A proof made with the exponent is accepted

  /** A group whose generator has order q, small enough to be sent (group 5 has 1536 bits). */
  ghost predicate GoodGroup(grp: Group)
  {
    && grp.p > 1 && grp.q <= grp.p && HasOrder(grp.g, grp.q, grp.p)
    && grp.g < grp.p && NumBits(grp.p) < 8 * SSHBUF_MAX_BIGNUM
  }

  const ID_LIMIT := 0x100_0000

  lemma {:induction false} NumBitsGrows(a: nat, b: nat)
    requires a <= b
    ensures NumBits(a) <= NumBits(b)
  {
    if a > 0 { NumBitsGrows(a / 2, b / 2); }
  }

  /** Every number up to p can be written and read back. */
  lemma Sendable(grp: Group, x: nat, rest: Bytes)
    requires GoodGroup(grp) && x <= grp.p
    ensures CanPutBignum(x) && |BignumBytes(x)| <= 5 + SSHBUF_MAX_BIGNUM
    ensures GetBignum(BignumBytes(x) + rest) == Wire.Ok(Read(x, rest))
  {
    NumBitsGrows(x, grp.p);
    BignumRoundTrip(x, rest);
    BignumBodyLength(x);
  }

  lemma AlwaysHashable(grp: Group, gv: nat, gx: nat, id: Bytes)
    requires GoodGroup(grp) && gv < grp.p && gx < grp.p && |id| <= ID_LIMIT
    ensures Hashable(grp, gv, gx, id)
  {
    hide GoodGroup;
    hide CanPutBignum;
    hide BignumBytes;
    assert GoodGroup(grp) ==> grp.q <= grp.p && grp.g <= grp.p by { InRange(grp); }
    Sendable(grp, grp.g, []);
    Sendable(grp, grp.p, []);
    Sendable(grp, grp.q, []);
    Sendable(grp, gv, []);
    Sendable(grp, gx, []);
  }

  lemma InRange(grp: Group)
    requires GoodGroup(grp)
    ensures grp.q <= grp.p && grp.g <= grp.p
  {
  }

  /** The pair (r, e) satisfies the verification equation. */
  lemma PairVerifies(h: Digest, grp: Group, x: nat, gx: nat, id: Bytes, v: nat, c: nat)
    requires GoodGroup(grp) && gx == ModPow(grp.g, x, grp.p) && 1 < gx
    requires Hash(h, grp, ModPow(grp.g, v, grp.p), gx, id) == Some(c)
    ensures VerifyPair(h, grp, gx, id, ModSub(v, ModMul(x, c, grp.q), grp.q), ModPow(grp.g, v, grp.p))
  {
    hide Hash;
    hide ModPow;
    hide ModMul;
    hide ModSub;
    var p, q, g := grp.p, grp.q, grp.g;
    var r := ModSub(v, ModMul(x, c, q), q);
    Equation(p, q, g, x, c, v, r);
    IsPow(g, 1, x, g, p);
    OrderIsOne(gx, x, g, q, p);
  }

  lemma Equation(p: Modulus, q: Modulus, g: nat, x: nat, c: nat, v: nat, r: nat)
    requires p > 1 && HasOrder(g, q, p)
    requires r == ModSub(v, ModMul(x, c, q), q)
    ensures ModMul(ModPow(g, r, p), ModPow(ModPow(g, x, p), c, p), p) == ModPow(g, v, p)
  {
    hide ModMul;
    hide ModPow;
    hide HasOrder;
    hide Is;
    IsPower(g, r, p);
    IsPower(g, x, p);
    IsPower(g, v, p);
    IsPow(ModPow(g, x, p), x, c, g, p);
    IsMul(ModPow(g, r, p), r, ModPow(ModPow(g, x, p), c, p), x * c, g, p);
    ExponentSum(q, x, c, v, r);
    IsUnique(ModMul(ModPow(g, r, p), ModPow(ModPow(g, x, p), c, p), p), ModPow(g, v, p), r + x * c, v, g, q, p);
  }

  lemma IsPower(g: nat, e: nat, p: Modulus)
    ensures Is(ModPow(g, e, p), g, e, p)
  {
    SameMod(Pow(g, e), p);
  }

  /** r + x*c is v modulo q. */
  lemma ExponentSum(q: Modulus, x: nat, c: nat, v: nat, r: nat)
    requires r == ModSub(v, ModMul(x, c, q), q)
    ensures Same(r + x * c, v, q)
  {
    var m := x * c;
    SameMod(m, q);
    var j := MultipleOf(m, m % q, q);
    SameMod(v - m % q, q);
    var k := MultipleOf(r, v - m % q, q);
    assert q * (k + j) == q * k + q * j;
    SameByMultiple(r + m, v, q, k + j);
  }

  lemma OrderIsOne(gx: nat, x: nat, g: nat, q: Modulus, p: Modulus)
    requires p > 1 && HasOrder(g, q, p) && gx == ModPow(g, x, p)
    ensures ModPow(gx, q, p) == 1
  {
    IsPower(g, x, p);
    IsOrder(gx, x, g, q, p);
    Small(1, p);
  }

  /** Signing succeeds exactly for a public value other than 1, and its proof is accepted. */
  lemma SignedVerifies(h: Digest, grp: Group, x: nat, gx: nat, id: Bytes, v: nat)
    requires GoodGroup(grp) && gx == ModPow(grp.g, x, grp.p) && |id| <= ID_LIMIT
    ensures Sign(h, grp, x, gx, id, v).Some? <==> gx > 1
    ensures gx > 1 ==> Verify(h, grp, gx, id, Sign(h, grp, x, gx, id, v).value)
  {
    hide GoodGroup;
    hide VerifyPair;
    hide Hash;
    hide GetBignum;
    hide CanPutBignum;
    hide BignumBytes;
    hide ModPow;
    if gx > 1 {
      InRange(grp);
      var gv := ModPow(grp.g, v, grp.p);
      HashSucceeds(h, grp, gv, gx, id);
      var c := Hash(h, grp, gv, gx, id).value;
      var r := ModSub(v, ModMul(x, c, grp.q), grp.q);
      Sendable(grp, r, []);
      Sendable(grp, gv, BignumBytes(r));
      assert BignumBytes(r) + [] == BignumBytes(r);
      PairVerifies(h, grp, x, gx, id, v, c);
    }
  }

  lemma HashSucceeds(h: Digest, grp: Group, gv: nat, gx: nat, id: Bytes)
    requires GoodGroup(grp) && gv < grp.p && gx < grp.p && |id| <= ID_LIMIT
    ensures Hash(h, grp, gv, gx, id).Some?
  {
    AlwaysHashable(grp, gv, gx, id);
  }
}
