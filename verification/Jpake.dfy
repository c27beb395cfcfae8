/** ssh/jpake.c: password-authenticated key exchange by juggling.  Random numbers and the hash
    function are parameters; None is a fatal error. */
module Jpake {
  import opened Wire
  import opened Congruence
  import opened ModExp
  import opened Schnorr

  /** What step 1 sends. */
  datatype Public = Public(id: Bytes, pub1: nat, pub2: nat, proof1: Bytes, proof2: Bytes)

  /** What step 2 sends. */
  datatype Second = Second(pub: nat, proof: Bytes)

  /** What key confirmation computes. */
  datatype Confirmed = Confirmed(k: nat, hash: Bytes)

  /** jpake_step1 with private values x, y and the random exponents v, w of the proofs. */
  function Step1(h: Digest, grp: Group, id: Bytes, x: nat, y: nat, v: nat, w: nat): Option<Public>
  {
    var pub1 := ModPow(grp.g, x, grp.p);
    var pub2 := ModPow(grp.g, y, grp.p);
    var proof1 :- Sign(h, grp, x, pub1, id, v);
    var proof2 :- Sign(h, grp, y, pub2, id, w);
    Some(Public(id, pub1, pub2, proof1, proof2))
  }

  function ThreeProduct(a: nat, b: nat, c: nat, p: Modulus): (r: nat)
    ensures r < p
  {
    ModMul(ModMul(a, b, p), c, p)
  }

  /** jpake_step2. */
  function Step2(h: Digest, grp: Group, s: nat, mypub1: nat, theirs: Public, mypriv2: nat, myid: Bytes,
                 v: nat): (r: Option<Second>)
    ensures r.Some? ==> Verify(h, grp, theirs.pub1, theirs.id, theirs.proof1)
                        && Verify(h, grp, theirs.pub2, theirs.id, theirs.proof2)
  {
    if theirs.pub1 <= 1 || theirs.pub1 >= grp.p || theirs.pub2 <= 1 || theirs.pub2 >= grp.p then None
    else if !Verify(h, grp, theirs.pub1, theirs.id, theirs.proof1) then None
    else if !Verify(h, grp, theirs.pub2, theirs.id, theirs.proof2) then None
    else
      var exponent := ModMul(mypriv2, s, grp.q);
      var tmp := ThreeProduct(mypub1, theirs.pub1, theirs.pub2, grp.p);
      var newpub := ModPow(tmp, exponent, grp.p);
      var proof :- Sign(h, grp.(g := tmp), exponent, newpub, myid, v);
      Some(Second(newpub, proof))
  }

  /** jpake_confirm_hash. */
  function ConfirmHash(h: Digest, k: nat, id: Bytes, sess: Bytes): Option<Bytes>
  {
    if CanPutBignum(k) && StringFits(id) && StringFits(sess)
       && |BignumBytes(k) + StringBytes(id) + StringBytes(sess)| <= SSHBUF_SIZE_MAX
    then Some(h(BignumBytes(k) + StringBytes(id) + StringBytes(sess)))
    else None
  }

  /** The key: (theirpub2^(q - mypriv2*s) * step2)^mypriv2. */
  function Key(grp: Group, s: nat, step2: nat, mypriv2: nat, theirpub2: nat): (k: nat)
    ensures k < grp.p
  {
    var e := ModSub(grp.q, mypriv2 * s, grp.q);
    ModPow(ModMul(ModPow(theirpub2, e, grp.p), step2, grp.p), mypriv2, grp.p)
  }

  /** jpake_key_confirm. */
  function KeyConfirm(h: Digest, grp: Group, s: nat, step2: Second, mypriv2: nat, mypub1: nat, mypub2: nat,
                      theirs: Public, myid: Bytes, sess: Bytes): (r: Option<Confirmed>)
    ensures r.Some? ==>
              Verify(h, grp.(g := ThreeProduct(mypub1, mypub2, theirs.pub1, grp.p)), step2.pub, theirs.id, step2.proof)
  {
    if step2.pub <= 1 || step2.pub >= grp.p then None
    else
      var tmp := ThreeProduct(mypub1, mypub2, theirs.pub1, grp.p);
      if !Verify(h, grp.(g := tmp), step2.pub, theirs.id, step2.proof) then None
      else
        var k := Key(grp, s, step2.pub, mypriv2, theirs.pub2);
        var hash :- ConfirmHash(h, k, myid, sess);
        Some(Confirmed(k, hash))
  }

  /** jpake_check_confirm. */
  function CheckConfirm(h: Digest, k: nat, peerid: Bytes, sess: Bytes, hash: Bytes): Option<bool>
  {
    var expected :- ConfirmHash(h, k, peerid, sess);
    Some(expected == hash)
  }

  // ----- A run of the protocol

  /** The private values x1..x4, the shared secret s, the random exponents of the six proofs,
      and the identifiers. */
  datatype Run = Run(x1: nat, x2: nat, x3: nat, x4: nat, s: nat,
                     v1: nat, v2: nat, v3: nat, v4: nat, v5: nat, v6: nat,
                     client: Bytes, server: Bytes, sess: Bytes)

  datatype Outcome = Outcome(clientKey: nat, serverKey: nat, clientAccepts: bool, serverAccepts: bool)

  /** Both sides of an honest run, message by message; None when either side dies. */
  function Exchange(h: Digest, grp: Group, run: Run): Option<Outcome>
  {
    var c1 :- Step1(h, grp, run.client, run.x1, run.x2, run.v1, run.v2);
    var s1 :- Step1(h, grp, run.server, run.x3, run.x4, run.v3, run.v4);
    SecondRound(h, grp, run, c1, s1)
  }

  function SecondRound(h: Digest, grp: Group, run: Run, c1: Public, s1: Public): Option<Outcome>
  {
    var a :- Step2(h, grp, run.s, c1.pub1, s1, run.x2, run.client, run.v5);
    var b :- Step2(h, grp, run.s, s1.pub1, c1, run.x4, run.server, run.v6);
    ConfirmRound(h, grp, run, c1, s1, a, b)
  }

  function ConfirmRound(h: Digest, grp: Group, run: Run, c1: Public, s1: Public, a: Second, b: Second): Option<Outcome>
  {
    var ck :- KeyConfirm(h, grp, run.s, b, run.x2, c1.pub1, c1.pub2, s1, run.client, run.sess);
    var sk :- KeyConfirm(h, grp, run.s, a, run.x4, s1.pub1, s1.pub2, c1, run.server, run.sess);
    var ca :- CheckConfirm(h, ck.k, run.server, run.sess, sk.hash);
    var sa :- CheckConfirm(h, sk.k, run.client, run.sess, ck.hash);
    Some(Outcome(ck.k, sk.k, ca, sa))
  }

  // ----- The algebra of one side

  /** x is g^e, modulo p. */
  lemma ProductIsPower(a: nat, x: nat, b: nat, y: nat, c: nat, z: nat, g: nat, p: Modulus)
    requires Is(a, g, x, p) && Is(b, g, y, p) && Is(c, g, z, p)
    ensures Is(ThreeProduct(a, b, c, p), g, x + y + z, p)
  {
    hide Is;
    hide ModMul;
    IsMul(a, x, b, y, g, p);
    IsMul(ModMul(a, b, p), x + y, c, z, g, p);
  }

  /** The generator of a step-2 proof is the one that the other side checks it with. */
  lemma SameGenerator(a: nat, b: nat, c: nat, p: Modulus)
    ensures ThreeProduct(a, b, c, p) == ThreeProduct(b, c, a, p)
  {
    SameMod(a * b, p);
    SameMul(a * b % p, a * b, c, c, p);
    SameMod(b * c, p);
    SameMul(b * c % p, b * c, a, a, p);
    assert a * b * c == b * c * a;
  }

  /** Reducing the exponent modulo q changes nothing: a is g^((x + y + z) * u * s). */
  lemma SecondIsPower(t: nat, e: nat, u: nat, s: nat, grp: Group)
    requires GoodGroup(grp) && Is(t, grp.g, e, grp.p)
    ensures Is(ModPow(t, ModMul(u, s, grp.q), grp.p), grp.g, e * (u * s), grp.p)
  {
    hide Is;
    hide HasOrder;
    var p, q, g := grp.p, grp.q, grp.g;
    var m := ModMul(u, s, q);
    IsPow(t, e, m, g, p);
    SameMod(u * s, q);
    SameMul(e, e, m, u * s, q);
    Shifted(ModPow(t, m, p), g, q, p, e * m, e * (u * s));
  }

  lemma Shifted(x: nat, g: nat, q: Modulus, p: Modulus, d: nat, e: nat)
    requires HasOrder(g, q, p) && Same(d, e, q) && Is(x, g, d, p)
    ensures Is(x, g, e, p)
  {
    ExponentsModQ(g, q, p, d, e);
  }

  /** The key that one side computes from g^w and the other's step-2 value g^f. */
  lemma KeyIsPower(grp: Group, s: nat, step2: nat, theirpub2: nat, u: nat, w: nat, f: nat, c: nat)
    requires HasOrder(grp.g, grp.q, grp.p) && Same(w * ModSub(grp.q, u * s, grp.q) + f, c, grp.q)
    requires Is(theirpub2, grp.g, w, grp.p) && Is(step2, grp.g, f, grp.p)
    ensures Is(Key(grp, s, step2, u, theirpub2), grp.g, c * u, grp.p)
  {
    hide Is;
    hide HasOrder;
    hide ModPow;
    hide ModMul;
    hide ModSub;
    var p, g, e := grp.p, grp.g, ModSub(grp.q, u * s, grp.q);
    IsPow(theirpub2, w, e, g, p);
    IsMul(ModPow(theirpub2, e, p), w * e, step2, f, g, p);
    var product := ModMul(ModPow(theirpub2, e, p), step2, p);
    Shifted(product, g, grp.q, p, w * e + f, c);
    IsPow(product, c, u, g, p);
  }

  /** Multiplying by g^(w * (q - u*s)) takes away the u * w * s. */
  lemma Cancels(q: Modulus, s: nat, sum: nat, u: nat, w: nat, e: nat)
    requires e == ModSub(q, u * s, q)
    ensures Same(w * e + (sum + u) * (w * s), sum * (w * s), q)
  {
    SameMod(q - u * s, q);
    var j := MultipleOf(e, q - u * s, q);
    assert e == q * (1 + j) - u * s;
    assert w * e == w * (q * (1 + j)) - w * (u * s);
    assert w * (q * (1 + j)) == q * (w * (1 + j));
    assert (sum + u) * (w * s) == sum * (w * s) + u * (w * s);
    assert u * (w * s) == w * (u * s);
    SameByMultiple(w * e + (sum + u) * (w * s), sum * (w * s), q, w * (1 + j));
  }

  // ----- One message at a time

  ghost predicate GoodIds(run: Run) { |run.client| <= ID_LIMIT && |run.server| <= ID_LIMIT && |run.sess| <= ID_LIMIT }

  function Pub(grp: Group, x: nat): (r: nat)
    ensures r < grp.p
  {
    ModPow(grp.g, x, grp.p)
  }

  /** The message that step 1 sends for the private values x and y, with valid proofs. */
  ghost predicate HonestPublic(h: Digest, grp: Group, m: Public, id: Bytes, x: nat, y: nat)
  {
    && m.id == id && m.pub1 == Pub(grp, x) > 1 && m.pub2 == Pub(grp, y) > 1
    && Verify(h, grp, m.pub1, id, m.proof1) && Verify(h, grp, m.pub2, id, m.proof2)
  }

  lemma Step1Succeeds(h: Digest, grp: Group, id: Bytes, x: nat, y: nat, v: nat, w: nat)
    requires GoodGroup(grp) && |id| <= ID_LIMIT
    ensures Step1(h, grp, id, x, y, v, w).Some? <==> Pub(grp, x) > 1 && Pub(grp, y) > 1
    ensures Step1(h, grp, id, x, y, v, w).Some? ==> HonestPublic(h, grp, Step1(h, grp, id, x, y, v, w).value, id, x, y)
  {
    hide Verify;
    hide Sign;
    SignedVerifies(h, grp, x, Pub(grp, x), id, v);
    SignedVerifies(h, grp, y, Pub(grp, y), id, w);
  }

  /** The generator of the step-2 proof of the side with private values x and y. */
  function Base(grp: Group, x: nat, z: nat, w: nat): (r: nat)
    ensures r < grp.p
  {
    ThreeProduct(Pub(grp, x), Pub(grp, z), Pub(grp, w), grp.p)
  }

  /** The step-2 value of the side with private values x and y, against z and w. */
  function Offer(grp: Group, x: nat, y: nat, z: nat, w: nat, s: nat): (r: nat)
    ensures r < grp.p
  {
    ModPow(Base(grp, x, z, w), ModMul(y, s, grp.q), grp.p)
  }

  lemma GoodBase(grp: Group, x: nat, z: nat, w: nat)
    requires GoodGroup(grp)
    ensures GoodGroup(grp.(g := Base(grp, x, z, w))) && Is(Base(grp, x, z, w), grp.g, x + z + w, grp.p)
  {
    hide Is;
    hide HasOrder;
    hide ThreeProduct;
    IsPower(grp.g, x, grp.p);
    IsPower(grp.g, z, grp.p);
    IsPower(grp.g, w, grp.p);
    ProductIsPower(Pub(grp, x), x, Pub(grp, z), z, Pub(grp, w), w, grp.g, grp.p);
    IsOrder(Base(grp, x, z, w), x + z + w, grp.g, grp.q, grp.p);
  }

  ghost predicate HonestSecond(h: Digest, grp: Group, m: Second, id: Bytes, x: nat, y: nat, z: nat, w: nat, s: nat)
  {
    && m.pub == Offer(grp, x, y, z, w, s) > 1
    && Verify(h, grp.(g := Base(grp, x, z, w)), m.pub, id, m.proof)
  }

  lemma Step2Succeeds(h: Digest, grp: Group, s: nat, x: nat, y: nat, theirs: Public, theirid: Bytes, z: nat, w: nat,
                      id: Bytes, v: nat)
    requires GoodGroup(grp) && |id| <= ID_LIMIT && HonestPublic(h, grp, theirs, theirid, z, w)
    ensures var r := Step2(h, grp, s, Pub(grp, x), theirs, y, id, v);
            && (r.Some? <==> Offer(grp, x, y, z, w, s) > 1)
            && (r.Some? ==> HonestSecond(h, grp, r.value, id, x, y, z, w, s))
  {
    hide GoodGroup;
    hide Verify;
    hide Sign;
    hide Pub;
    hide ModPow;
    hide ThreeProduct;
    GoodBase(grp, x, z, w);
    SignedVerifies(h, grp.(g := Base(grp, x, z, w)), ModMul(y, s, grp.q), Offer(grp, x, y, z, w, s), id, v);
  }

  // ----- The key

  /** What both sides are to compute. */
  function SharedKey(grp: Group, run: Run): nat
  {
    ModPow(grp.g, (run.x1 + run.x3) * run.x2 * run.x4 * run.s, grp.p)
  }

  /** The key as the side with private values x and y comes to it. */
  function SideKey(grp: Group, x: nat, y: nat, z: nat, w: nat, s: nat): (r: nat)
    ensures r < grp.p
  {
    ModPow(grp.g, (x + z) * (w * s) * y, grp.p)
  }

  function OfferExponent(sum: nat, u: nat, t: nat): nat { (sum + u) * t }

  lemma OfferIsPower(grp: Group, x: nat, y: nat, z: nat, w: nat, s: nat)
    requires GoodGroup(grp)
    ensures Is(Offer(grp, z, w, x, y, s), grp.g, OfferExponent(x + z, y, w * s), grp.p)
  {
    hide Is;
    hide ModPow;
    hide ModMul;
    hide GoodGroup;
    GoodBase(grp, z, x, y);
    SecondIsPower(Base(grp, z, x, y), z + x + y, w, s, grp);
    assert (z + x + y) * (w * s) == OfferExponent(x + z, y, w * s);
  }

  lemma KeyFromOffer(grp: Group, x: nat, y: nat, z: nat, w: nat, s: nat)
    requires GoodGroup(grp)
    ensures Key(grp, s, Offer(grp, z, w, x, y, s), y, Pub(grp, w)) == SideKey(grp, x, y, z, w, s)
  {
    hide Is;
    hide Key;
    hide Offer;
    hide Same;
    hide ModSub;
    OfferIsPower(grp, x, y, z, w, s);
    IsPower(grp.g, w, grp.p);
    Cancels(grp.q, s, x + z, y, w, ModSub(grp.q, y * s, grp.q));
    var f, c := OfferExponent(x + z, y, w * s), (x + z) * (w * s);
    KeyIsPower(grp, s, Offer(grp, z, w, x, y, s), Pub(grp, w), y, w, f, c);
    OneReducedPower(grp, Key(grp, s, Offer(grp, z, w, x, y, s), y, Pub(grp, w)), c * y);
  }

  lemma OneReducedPower(grp: Group, k: nat, e: nat)
    requires k < grp.p && Is(k, grp.g, e, grp.p)
    ensures k == ModPow(grp.g, e, grp.p)
  {
    Small(k, grp.p);
  }

  lemma StringLength(s: Bytes)
    requires StringFits(s)
    ensures |StringBytes(s)| == 4 + |s|
  {
  }

  lemma ConfirmHashSucceeds(h: Digest, grp: Group, k: nat, id: Bytes, sess: Bytes)
    requires GoodGroup(grp) && k < grp.p && |id| <= ID_LIMIT && |sess| <= ID_LIMIT
    ensures ConfirmHash(h, k, id, sess).Some?
  {
    hide GoodGroup;
    hide CanPutBignum;
    hide BignumBytes;
    hide BigEndian;
    InRange(grp);
    Sendable(grp, k, []);
    StringLength(id);
    StringLength(sess);
  }

  /** The side with private values x and y confirms the other's step-2 message. */
  lemma KeyConfirmSucceeds(h: Digest, grp: Group, s: nat, second: Second, x: nat, y: nat,
                           theirs: Public, theirid: Bytes, z: nat, w: nat, id: Bytes, sess: Bytes)
    requires GoodGroup(grp) && |id| <= ID_LIMIT && |sess| <= ID_LIMIT
    requires HonestPublic(h, grp, theirs, theirid, z, w) && HonestSecond(h, grp, second, theirid, z, w, x, y, s)
    ensures ConfirmHash(h, SideKey(grp, x, y, z, w, s), id, sess).Some?
    ensures KeyConfirm(h, grp, s, second, y, Pub(grp, x), Pub(grp, y), theirs, id, sess)
            == Some(Confirmed(SideKey(grp, x, y, z, w, s), ConfirmHash(h, SideKey(grp, x, y, z, w, s), id, sess).value))
  {
    hide GoodGroup;
    hide Verify;
    hide Key;
    hide ConfirmHash;
    hide SideKey;
    hide Offer;
    hide Pub;
    hide ThreeProduct;
    SameGenerator(Pub(grp, z), Pub(grp, x), Pub(grp, y), grp.p);
    KeyFromOffer(grp, x, y, z, w, s);
    ConfirmHashSucceeds(h, grp, SideKey(grp, x, y, z, w, s), id, sess);
  }

  lemma SameSideKeys(grp: Group, run: Run)
    ensures SideKey(grp, run.x1, run.x2, run.x3, run.x4, run.s) == SharedKey(grp, run)
    ensures SideKey(grp, run.x3, run.x4, run.x1, run.x2, run.s) == SharedKey(grp, run)
  {
    hide ModPow;
    var t := run.x1 + run.x3;
    assert t * (run.x4 * run.s) * run.x2 == t * run.x2 * run.x4 * run.s;
    assert t * (run.x2 * run.s) * run.x4 == t * run.x2 * run.x4 * run.s;
  }

  // ----- The agreement

  /** No value that is sent is 1. */
  ghost predicate Live(grp: Group, run: Run)
  {
    && Pub(grp, run.x1) > 1 && Pub(grp, run.x2) > 1 && Pub(grp, run.x3) > 1 && Pub(grp, run.x4) > 1
    && Offer(grp, run.x1, run.x2, run.x3, run.x4, run.s) > 1
    && Offer(grp, run.x3, run.x4, run.x1, run.x2, run.s) > 1
  }

  lemma ConfirmRoundAgrees(h: Digest, grp: Group, run: Run, c1: Public, s1: Public, a: Second, b: Second)
    requires GoodGroup(grp) && GoodIds(run)
    requires HonestPublic(h, grp, c1, run.client, run.x1, run.x2)
             && HonestPublic(h, grp, s1, run.server, run.x3, run.x4)
    requires HonestSecond(h, grp, a, run.client, run.x1, run.x2, run.x3, run.x4, run.s)
    requires HonestSecond(h, grp, b, run.server, run.x3, run.x4, run.x1, run.x2, run.s)
    ensures ConfirmRound(h, grp, run, c1, s1, a, b)
            == Some(Outcome(SharedKey(grp, run), SharedKey(grp, run), true, true))
  {
    hide GoodGroup;
    hide HonestSecond;
    hide Verify;
    hide KeyConfirm;
    hide ConfirmHash;
    hide SideKey;
    hide SharedKey;
    hide Pub;
    KeyConfirmSucceeds(h, grp, run.s, b, run.x1, run.x2, s1, run.server, run.x3, run.x4, run.client, run.sess);
    KeyConfirmSucceeds(h, grp, run.s, a, run.x3, run.x4, c1, run.client, run.x1, run.x2, run.server, run.sess);
    SameSideKeys(grp, run);
  }

  lemma SecondRoundAgrees(h: Digest, grp: Group, run: Run, c1: Public, s1: Public)
    requires GoodGroup(grp) && GoodIds(run)
    requires HonestPublic(h, grp, c1, run.client, run.x1, run.x2)
             && HonestPublic(h, grp, s1, run.server, run.x3, run.x4)
    ensures SecondRound(h, grp, run, c1, s1) ==
            if Live(grp, run) then Some(Outcome(SharedKey(grp, run), SharedKey(grp, run), true, true)) else None
  {
    hide GoodGroup;
    hide HonestSecond;
    hide Verify;
    hide Step2;
    hide ConfirmRound;
    hide SharedKey;
    hide Offer;
    hide Pub;
    var a := Step2(h, grp, run.s, c1.pub1, s1, run.x2, run.client, run.v5);
    var b := Step2(h, grp, run.s, s1.pub1, c1, run.x4, run.server, run.v6);
    Step2Succeeds(h, grp, run.s, run.x1, run.x2, s1, run.server, run.x3, run.x4, run.client, run.v5);
    Step2Succeeds(h, grp, run.s, run.x3, run.x4, c1, run.client, run.x1, run.x2, run.server, run.v6);
    if a.Some? && b.Some? {
      ConfirmRoundAgrees(h, grp, run, c1, s1, a.value, b.value);
    }
  }

  /** For all private values, secrets and random exponents, and for every generator of order q:
      the run completes exactly when none of the six values sent is 1, and then both sides hold
      g^((x1+x3)*x2*x4*s) and accept each other's confirmation. */
  lemma Agreement(h: Digest, grp: Group, run: Run)
    requires GoodGroup(grp) && GoodIds(run)
    ensures Exchange(h, grp, run) ==
            if Live(grp, run) then Some(Outcome(SharedKey(grp, run), SharedKey(grp, run), true, true)) else None
  {
    hide GoodGroup;
    hide HonestPublic;
    hide Step1;
    hide SecondRound;
    hide SharedKey;
    hide Offer;
    hide Pub;
    var c1 := Step1(h, grp, run.client, run.x1, run.x2, run.v1, run.v2);
    var s1 := Step1(h, grp, run.server, run.x3, run.x4, run.v3, run.v4);
    Step1Succeeds(h, grp, run.client, run.x1, run.x2, run.v1, run.v2);
    Step1Succeeds(h, grp, run.server, run.x3, run.x4, run.v3, run.v4);
    if c1.Some? && s1.Some? {
      SecondRoundAgrees(h, grp, run, c1.value, s1.value);
    }
  }

  // ----- Confirmation

  /** A side with another key, identifier or session is accepted only if the hash collides on the
      two very inputs. */
  lemma ConfirmationBinds(h: Digest, grp: Group, k: nat, id: Bytes, sess: Bytes, k': nat, id': Bytes, sess': Bytes)
    requires GoodGroup(grp) && k < grp.p && k' < grp.p
    requires ConfirmHash(h, k', id', sess').Some?
    requires CheckConfirm(h, k, id, sess, ConfirmHash(h, k', id', sess').value) == Some(true)
    ensures CanPutBignum(k) && StringFits(id) && StringFits(sess)
    ensures CanPutBignum(k') && StringFits(id') && StringFits(sess')
    ensures (k == k' && id == id' && sess == sess')
            || Collision(h, BignumBytes(k) + StringBytes(id) + StringBytes(sess),
                         BignumBytes(k') + StringBytes(id') + StringBytes(sess'))
  {
    hide GoodGroup;
    hide CanPutBignum;
    hide BignumBytes;
    hide GetBignum;
    hide StringBytes;
    var a := BignumBytes(k) + StringBytes(id) + StringBytes(sess);
    var b := BignumBytes(k') + StringBytes(id') + StringBytes(sess');
    if a == b {
      InputInjective(grp, k, id, sess, k', id', sess');
    }
  }

  lemma InputInjective(grp: Group, k: nat, id: Bytes, sess: Bytes, k': nat, id': Bytes, sess': Bytes)
    requires GoodGroup(grp) && k < grp.p && k' < grp.p && CanPutBignum(k) && CanPutBignum(k')
    requires StringFits(id) && StringFits(sess) && StringFits(id') && StringFits(sess')
    requires BignumBytes(k) + StringBytes(id) + StringBytes(sess)
             == BignumBytes(k') + StringBytes(id') + StringBytes(sess')
    ensures k == k' && id == id' && sess == sess'
  {
    hide GoodGroup;
    hide CanPutBignum;
    hide BignumBytes;
    hide GetBignum;
    hide GetString;
    hide StringBytes;
    var t, t' := StringBytes(id) + StringBytes(sess), StringBytes(id') + StringBytes(sess');
    assert BignumBytes(k) + t == BignumBytes(k) + StringBytes(id) + StringBytes(sess);
    assert BignumBytes(k') + t' == BignumBytes(k') + StringBytes(id') + StringBytes(sess');
    Sendable(grp, k, t);
    Sendable(grp, k', t');
    StringRoundTrip(id, StringBytes(sess));
    StringRoundTrip(id', StringBytes(sess'));
    StringRoundTrip(sess, []);
    StringRoundTrip(sess', []);
    assert StringBytes(sess) + [] == StringBytes(sess') + [];
  }
}
